/** The main window's state and its slot handlers (mainwindow.h and
    mainwindow.cpp, class MainWindow). The widgets the handlers touch are
    fields; the media player and audio output are outside the model, and
    every request made of them is recorded, in order, in `calls`. */
module Window {
  import opened CppInt
  import opened Sliders
  import opened TrackNav
  import opened TimeDisplay
  import opened FileNames

  /** The folder songs are loaded from, hard-coded in the source. */
  const MUSIC_FOLDER: string := "/Users/pannatatsribusarakham/Documents/Music"

  /** The file a song-list item stands for: an ".mp3" file in the music
      folder. */
  function SongPath(item: string): (path: string)
    ensures |path| == |MUSIC_FOLDER| + 1 + |item| + 4
    ensures path[|path| - 4..] == ".mp3"
  {
    MUSIC_FOLDER + "/" + item + ".mp3"
  }

  /** The file's name without extension is the item text, whatever dots the
      item holds. */
  lemma SongPathStem(item: string)
    ensures StripExt(SongPath(item)) == MUSIC_FOLDER + "/" + item
  {
    assert SongPath(item) == (MUSIC_FOLDER + "/" + item) + "." + "mp3";
    StripExtRoundTrip(MUSIC_FOLDER + "/" + item, "mp3");
  }

  /** A request made of the QMediaPlayer or its QAudioOutput. */
  datatype PlayerCall =
    | SetSource(path: string)
    | Play
    | Pause
    | SetMuted(muted: bool)
    | SetPosition(ms: int)

  /** The standard icons the buttons switch between. */
  datatype Icon = MediaPlay | MediaPause | MediaVolume | MediaVolumeMuted

  /** A duration label: not yet written by the window, or showing a QTime
      rendered in a format. */
  datatype TimeLabel = Unset | Showing(time: TimeFields, format: TimeFormat)

  /** Everything the window keeps, as one value. */
  datatype WindowState = WindowState(
    isMuted: bool,
    isPaused: bool,
    duration: int,
    progress: Slider,
    songs: seq<string>,
    currentRow: int,
    fileLabel: string,
    playlistLabel: string,
    trackCount: int,
    currentTimeLabel: TimeLabel,
    totalTimeLabel: TimeLabel,
    playIcon: Icon,
    muteIcon: Icon,
    calls: seq<PlayerCall>)

  /** The icon the mute button shows for a volume slider value. */
  function VolumeIcon(value: int): (icon: Icon)
    ensures icon == MediaVolumeMuted <==> value == 0
    ensures icon == MediaVolume <==> value != 0
  {
    if value == 0 then MediaVolumeMuted else MediaVolume
  }

  class MainWindow {
    /** Set by the mute button; starts false. */
    var isMuted: bool
    /** Set when the play/pause button asks to PLAY (the name is inverted);
        starts false. */
    var isPaused: bool
    /** M_Duration: the current source's length in whole seconds. */
    var duration: int
    /** slider_SongProgress, in seconds. */
    var progress: Slider
    /** The item texts of listWidget_Songs_in_Playlist. */
    var songs: seq<string>
    /** Its current row; -1 when there is no current item. */
    var currentRow: int
    /** label_fileName. */
    var fileLabel: string
    /** label_PlaylistName. */
    var playlistLabel: string
    /** label_TrackQuantity, as the number it displays. */
    var trackCount: int
    /** label_CurrentSongDuration and label_TotalSongDuration. */
    var currentTimeLabel: TimeLabel
    var totalTimeLabel: TimeLabel
    /** The icons of the play/pause and mute buttons. */
    var playIcon: Icon
    var muteIcon: Icon
    /** Requests made of the player and audio output, oldest first. */
    var calls: seq<PlayerCall>

    ghost function State(): WindowState
      reads this
    {
      WindowState(isMuted, isPaused, duration, progress, songs, currentRow,
                  fileLabel, playlistLabel, trackCount, currentTimeLabel,
                  totalTimeLabel, playIcon, muteIcon, calls)
    }

    /** The current row is a row of the list or -1, the slider's value is in
        its range, and the duration can be scaled back to milliseconds
        without leaving qint64. */
    ghost predicate Valid()
      reads this
    {
      IsCurrentRow(currentRow, |songs|) && progress.Valid() && IsInt64(SecondsToMs(duration))
    }

    /** The window as the constructor leaves it: a player with no source has
        duration 0, so M_Duration is 0 and the progress slider's range is
        [0, 0]; nothing is muted, paused or listed. */
    constructor ()
      ensures Valid()
      ensures !isMuted && !isPaused
      ensures duration == 0 && progress == Slider(0, 0, 0)
      ensures songs == [] && currentRow == -1
      ensures currentTimeLabel == Unset && totalTimeLabel == Unset
      ensures playIcon == MediaPlay && muteIcon == MediaVolume
      ensures calls == []
    {
      isMuted, isPaused := false, false;
      duration := MsToSeconds(0);
      // QAbstractSlider starts at range [0, 99], value 0; then setRange(0, duration() / 1000)
      progress := SetRange(Slider(0, 99, 0), 0, ToInt32(MsToSeconds(0)));
      songs, currentRow := [], -1;
      fileLabel, playlistLabel, trackCount := "", "", 0;
      currentTimeLabel, totalTimeLabel := Unset, Unset;
      playIcon, muteIcon := MediaPlay, MediaVolume;
      calls := [];
    }

    /** durationChanged: the new length is kept in whole seconds and becomes
        the progress slider's maximum. */
    method DurationChanged(ms: int)
      requires Valid() && IsInt64(ms)
      modifies this
      ensures Valid()
      ensures duration == MsToSeconds(ms)
      ensures progress == SetMaximum(old(progress), ToInt32(duration))
      ensures State() == old(State()).(duration := duration, progress := progress)
    {
      duration := MsToSeconds(ms);
      ScaleBackFitsInt64(ms);
      progress := SetMaximum(progress, ToInt32(duration));
    }

    /** positionChanged: the slider follows the position, in seconds, only
        while the user is not dragging it; the labels are refreshed either
        way. */
    method PositionChanged(ms: int, sliderDown: bool)
      requires Valid() && IsInt64(ms)
      modifies this
      ensures Valid()
      ensures sliderDown ==> progress == old(progress)
      ensures !sliderDown ==> progress == SetValue(old(progress), ToInt32(MsToSeconds(ms)))
      ensures (MsToSeconds(ms) != 0 || duration != 0) ==>
                currentTimeLabel == Showing(Split(MsToSeconds(ms)), FormatFor(duration)) &&
                totalTimeLabel == Showing(Split(duration), FormatFor(duration))
      ensures (MsToSeconds(ms) == 0 && duration == 0) ==>
                currentTimeLabel == old(currentTimeLabel) && totalTimeLabel == old(totalTimeLabel)
      ensures State() == old(State()).(progress := progress, currentTimeLabel := currentTimeLabel,
                                       totalTimeLabel := totalTimeLabel)
    {
      var secs := MsToSeconds(ms);
      if !sliderDown {
        progress := SetValue(progress, ToInt32(secs));
      }
      ScaleBackFitsInt64(ms);
      UpdateDuration(secs);
    }

    /** updateDuration: with a position or a length to show, both labels get
        their QTime fields and the format chosen from the length; with
        neither, the labels stay as they were. */
    method UpdateDuration(secs: int)
      requires Valid() && IsInt64(SecondsToMs(secs))
      modifies this
      ensures Valid()
      ensures (secs != 0 || duration != 0) ==>
                currentTimeLabel == Showing(Split(secs), FormatFor(duration)) &&
                totalTimeLabel == Showing(Split(duration), FormatFor(duration))
      ensures (secs != 0 || duration != 0) ==>
                (currentTimeLabel.format == HourMinSec <==> duration > 3600)
      ensures (secs == 0 && duration == 0) ==> State() == old(State())
      ensures State() == old(State()).(currentTimeLabel := currentTimeLabel,
                                       totalTimeLabel := totalTimeLabel)
    {
      if secs != 0 || duration != 0 {
        var format := FormatFor(duration);
        currentTimeLabel := Showing(Split(secs), format);
        totalTimeLabel := Showing(Split(duration), format);
      }
    }

    /** The mute button: each click flips isMuted, tells the audio output to
        match it, and shows the matching icon. */
    method ToggleMute()
      modifies this
      ensures isMuted == !old(isMuted)
      ensures calls == old(calls) + [SetMuted(isMuted)]
      ensures muteIcon == if isMuted then MediaVolumeMuted else MediaVolume
      ensures State() == old(State()).(isMuted := isMuted, calls := calls, muteIcon := muteIcon)
    {
      if !isMuted {
        muteIcon := MediaVolumeMuted;
        calls := calls + [SetMuted(true)];
        isMuted := true;
      } else {
        muteIcon := MediaVolume;
        calls := calls + [SetMuted(false)];
        isMuted := false;
      }
    }

    /** The play/pause button: each click flips isPaused; the player is told
        to play when isPaused was false and to pause when it was true. */
    method TogglePlay()
      modifies this
      ensures isPaused == !old(isPaused)
      ensures calls == old(calls) + [if old(isPaused) then Pause else Play]
      ensures playIcon == if isPaused then MediaPause else MediaPlay
      ensures State() == old(State()).(isPaused := isPaused, calls := calls, playIcon := playIcon)
    {
      if !isPaused {
        playIcon := MediaPause;
        calls := calls + [Play];
        isPaused := true;
      } else {
        playIcon := MediaPlay;
        calls := calls + [Pause];
        isPaused := false;
      }
    }

    /** Dragging the progress slider seeks to its value, in milliseconds. */
    method SeekSliderMoved(value: int)
      requires IsInt32(value)
      modifies this
      ensures calls == old(calls) + [SetPosition(SecondsToMs(value))]
      ensures IsInt64(SecondsToMs(value)) && MsToSeconds(SecondsToMs(value)) == value
      ensures State() == old(State()).(calls := calls)
    {
      SeekFitsInt64(value);
      SecondsRoundTrip(value);
      calls := calls + [SetPosition(SecondsToMs(value))];
    }

    /** Dragging the volume slider: the mute button shows "muted" exactly when
        the value is 0. isMuted is left alone. */
    method VolumeSliderMoved(value: int)
      requires IsInt32(value)
      modifies this
      ensures muteIcon == MediaVolumeMuted <==> value == 0
      ensures State() == old(State()).(muteIcon := VolumeIcon(value))
    {
      muteIcon := VolumeIcon(value);
    }

    /** Clicking a song in the list (the list makes the clicked row current
        before it reports the click): the song's file becomes the source, it
        is played if the player accepted it, the file label shows the item
        text stripped of an extension, and the button shows "pause".
        isPaused is not updated. */
    method ItemClicked(row: int, loaded: bool)
      requires Valid() && 0 <= row < |songs|
      modifies this
      ensures Valid()
      ensures currentRow == row
      ensures calls == old(calls) + [SetSource(SongPath(songs[row]))] + (if loaded then [Play] else [])
      ensures fileLabel == StripExt(songs[row])
      ensures State() == old(State()).(currentRow := row, calls := calls, fileLabel := fileLabel,
                                       playIcon := MediaPause)
    {
      currentRow := row;
      var item := songs[row];
      calls := calls + [SetSource(SongPath(item))];
      if loaded {
        calls := calls + [Play];
      }
      fileLabel := StripExt(item);
      playIcon := MediaPause;
    }

    /** addAllSongs: the list is cleared, then gets one item per file of the
        folder listing, each the file name without its extension; the
        playlist label reads "All Songs" and the track count is the number
        of files in the folder. */
    method AddAllSongs(listing: seq<string>, fileCount: int)
      requires Valid()
      modifies this
      ensures Valid()
      ensures |songs| == |listing|
      ensures forall i :: 0 <= i < |listing| ==> songs[i] == StripExt(listing[i])
      ensures currentRow == -1
      ensures State() == old(State()).(songs := songs, currentRow := -1,
                                       playlistLabel := "All Songs", trackCount := fileCount)
    {
      songs, currentRow := [], -1;
      for i := 0 to |listing|
        invariant |songs| == i
        invariant forall j :: 0 <= j < i ==> songs[j] == StripExt(listing[j])
        invariant State() == old(State()).(songs := songs, currentRow := -1)
      {
        songs := songs + [StripExt(listing[i])];
      }
      playlistLabel := "All Songs";
      trackCount := fileCount;
    }

    /** skipToNextSong: on a non-empty list the next row (wrapping to the
        first) becomes current, its song is shown, loaded and played; on an
        empty list nothing changes. */
    method Skip()
      requires Valid()
      modifies this
      ensures Valid()
      ensures |songs| == 0 ==> State() == old(State())
      ensures |songs| > 0 ==>
                0 <= currentRow < |songs| &&
                currentRow == NextRow(old(currentRow), |songs|) &&
                State() == old(State()).(currentRow := currentRow,
                                         fileLabel := songs[currentRow],
                                         calls := old(calls) + [SetSource(SongPath(songs[currentRow])), Play])
    {
      var itemCount := |songs|;
      if itemCount > 0 {
        var nextRow := NextRow(currentRow, itemCount);
        NextRowSteps(currentRow, itemCount);
        currentRow := SelectRow(nextRow, itemCount);
        if currentRow >= 0 {
          var item := songs[currentRow];
          fileLabel := item;
          calls := calls + [SetSource(SongPath(item)), Play];
        }
      }
    }

    /** BackToPreviousSong: on a non-empty list the row `(row - 1) % count`
        (C++ remainder) is made current; when it is a row of the list its song
        is shown, loaded and played, otherwise the list is left with no
        current item and nothing is loaded. On an empty list nothing
        changes. */
    method Back()
      requires Valid()
      modifies this
      ensures Valid()
      ensures |songs| == 0 ==> State() == old(State())
      ensures |songs| > 0 ==> currentRow == SelectRow(PrevRow(old(currentRow), |songs|), |songs|)
      ensures |songs| > 0 && currentRow >= 0 ==>
                State() == old(State()).(currentRow := currentRow,
                                         fileLabel := songs[currentRow],
                                         calls := old(calls) + [SetSource(SongPath(songs[currentRow])), Play])
      ensures |songs| > 0 && currentRow < 0 ==> State() == old(State()).(currentRow := -1)
      ensures old(currentRow) >= 1 ==> currentRow == old(currentRow) - 1
      ensures old(currentRow) == 0 && |songs| >= 2 ==> currentRow == -1 && calls == old(calls)
    {
      var itemCount := |songs|;
      if itemCount > 0 {
        var previousRow := PrevRow(currentRow, itemCount);
        PrevRowSteps(currentRow, itemCount);
        currentRow := SelectRow(previousRow, itemCount);
        if currentRow >= 0 {
          var item := songs[currentRow];
          fileLabel := item;
          calls := calls + [SetSource(SongPath(item)), Play];
        }
      }
    }
  }

  /** Two clicks on the mute button restore isMuted; the audio output was
      told to mute and unmute (or the reverse), and the icon once more
      matches isMuted, even if the volume slider had changed it. */
  method ClickMuteTwice(w: MainWindow)
    modifies w
    ensures w.isMuted == old(w.isMuted)
    ensures w.calls == old(w.calls) + [SetMuted(!w.isMuted), SetMuted(w.isMuted)]
    ensures w.State() == old(w.State()).(calls := w.calls,
                                         muteIcon := if w.isMuted then MediaVolumeMuted else MediaVolume)
  {
    w.ToggleMute();
    w.ToggleMute();
  }

  /** Two clicks on the play/pause button restore isPaused, after asking the
      player to play then pause (from false) or pause then play (from
      true). */
  method ClickPlayTwice(w: MainWindow)
    modifies w
    ensures w.isPaused == old(w.isPaused)
    ensures w.calls == old(w.calls) + (if w.isPaused then [Pause, Play] else [Play, Pause])
    ensures w.State() == old(w.State()).(calls := w.calls,
                                         playIcon := if w.isPaused then MediaPause else MediaPlay)
  {
    w.TogglePlay();
    w.TogglePlay();
  }

  /** Back right after Skip returns to the row Skip left, except when Skip
      wrapped from the last row to the first. */
  method SkipThenBack(w: MainWindow)
    requires w.Valid() && 0 <= w.currentRow < |w.songs| - 1
    modifies w
    ensures w.Valid() && w.songs == old(w.songs)
    ensures w.currentRow == old(w.currentRow)
    ensures w.calls == old(w.calls) + [SetSource(SongPath(w.songs[w.currentRow + 1])), Play,
                                       SetSource(SongPath(w.songs[w.currentRow])), Play]
  {
    var row := w.currentRow;
    NextRowSteps(row, |w.songs|);
    w.Skip();
    assert w.currentRow == row + 1;
    ghost var afterSkip := w.calls;
    w.Back();
    assert w.calls == afterSkip + [SetSource(SongPath(w.songs[row])), Play];
  }
}
