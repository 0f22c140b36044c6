# Symmo main window, modelled in Dafny

Symmo is a desktop music player: one Qt window with a song list, play/pause,
skip, back, mute, a progress slider and duration labels, wired to a
`QMediaPlayer` and a `QAudioOutput`. Almost all of it is widget plumbing. This
project models the small amount of logic inside the window's slot handlers
(`mainwindow.cpp`) and proves what it does:

- `CppInt` — C++ integer semantics the handlers depend on: `/` truncates
  toward zero and `%` takes the sign of the dividend (Dafny's are Euclidean),
  the `int` and `qint64` ranges, and the wrap-around of a narrowing to `int`.
- `Sliders` — the part of `QAbstractSlider` the window drives: `setValue`
  clamps into the range, `setRange`/`setMaximum` keep the value inside it.
- `TrackNav` — the row arithmetic of Skip, `(row + 1) % count`, and Back,
  `(row - 1) % count`, and `QListWidget::setCurrentRow`, which leaves no
  current item for a row outside the list.
- `TimeDisplay` — milliseconds to whole seconds and back, the QTime fields
  `updateDuration` builds, and the `"mm:ss"` / `"hh:mm:ss"` format choice.
- `FileNames` — `name.left(name.lastIndexOf('.'))`, the extension stripping
  used when a file is opened, when the folder is listed and when a song is
  clicked.
- `Window` — class `MainWindow` with the fields the handlers update
  (`isMuted`, `isPaused`, `M_Duration`, the song list and its current row,
  the labels, the button icons, the progress slider) and one method per
  handler. Requests made of the media player and audio output (`setSource`,
  `play`, `pause`, `setMuted`, `setPosition`) are appended to a `calls` log,
  so every method states exactly what it asked the player to do.

The methods are proved against their specification: each states the whole new
state of the window through `State()`, and the invariant `Valid()` (the
current row is a row of the list or -1, the slider's value is in its range,
the duration can be scaled back to milliseconds inside `qint64`) is
preserved.

Skip and Back both apply `% itemCount`, which only makes sense if both were
meant to wrap; C++ `%` truncates, so Back from the first row gives -1 and
leaves the list with no current item. The model follows the code (see
Findings).

## Model

| member | source | states |
|---|---|---|
| CppInt.TruncDiv | mainwindow.cpp:73 | the C++ quotient: its magnitude is the floor of the magnitudes' quotient, its sign that of the operands' product |
| CppInt.TruncRem | mainwindow.cpp:274 | the C++ remainder: smaller than the divisor in magnitude and never of the opposite sign to the dividend |
| CppInt.TruncDivRem | mainwindow.cpp:88-89 | quotient times divisor plus remainder gives back the dividend, for every sign |
| CppInt.TruncAgreesOnNatural | mainwindow.cpp:251 | for a non-negative dividend and positive divisor C++ and Euclidean division agree |
| CppInt.MinusOneRem | mainwindow.cpp:274 | `-1 % n` is -1 in C++ where the Euclidean remainder is n - 1 |
| CppInt.TruncRemOfMultiple | mainwindow.cpp:88 | an exact multiple of a positive divisor has C++ remainder 0 and divides back to its factor, whatever its sign |
| CppInt.ToInt32 | mainwindow.cpp:74 | narrowing to `int` gives a 32-bit value congruent to the input modulo 2^32, and leaves values that fit unchanged |
| Sliders.Bound | mainwindow.cpp:80 | the clamp of a value into a range: inside it, equal to the value when it fits, the nearer end otherwise |
| Sliders.SetValue | mainwindow.cpp:80 | the slider keeps its range and takes the value exactly when it is in range; the value always stays in range |
| Sliders.SetRange | mainwindow.cpp:49 | the new minimum is as given, a maximum below it is raised to it, and the old value is kept exactly when it fits the new range |
| Sliders.SetMaximum | mainwindow.cpp:74 | the maximum becomes as given, the minimum is kept unless it is above it, and a value that still fits is kept |
| TrackNav.NextRow | mainwindow.cpp:251 | `(currentRow + 1) % itemCount` with C++ `%`: smaller than the count in magnitude, and a row of the list for any current row or -1 |
| TrackNav.PrevRow | mainwindow.cpp:274 | `(currentRow - 1) % itemCount` with C++ `%`: smaller than the count in magnitude, a row from row 1 on, and 0 or negative from row 1 down |
| TrackNav.PrevRowWrapped | mainwindow.cpp:274 | the corrected Back with a wrapping remainder: always a row of the list |
| TrackNav.SelectRow | mainwindow.cpp:276-280 | a row of the list becomes current; any other value leaves no current item (-1) |
| TrackNav.NextRowSteps | mainwindow.cpp:244-254 | Skip from any current row or -1 lands in [0, count): the next row, 0 from the last row, 0 from no selection |
| TrackNav.PrevRowSteps | mainwindow.cpp:271-276 | Back gives row - 1 from row >= 1; from row 0 it gives -1 (0 on a one-item list); from -1 it gives -2 (0 on lists of one or two) |
| TrackNav.SkipBackInverse | mainwindow.cpp:251-274 | Back undoes Skip and Skip undoes Back away from the first/last boundary |
| TrackNav.BackFromFirstRowSelectsNothing | mainwindow.cpp:274-280 | Back from row 0 of a list of two or more leaves no current item, where a wrapping Back reaches the last row |
| TrackNav.PrevRowWrappedInverse | mainwindow.cpp:274 | the wrapping Back always lands on a row and is the exact inverse of Skip on the rows of the list |
| TimeDisplay.MsToSeconds | mainwindow.cpp:73 | `ms / 1000` in C++: whole seconds no further from zero than the milliseconds, less than a second short of them in magnitude, with their sign |
| TimeDisplay.SecondsToMs | mainwindow.cpp:151 | `value * 1000`: a multiple of 1000 whose C++ quotient by 1000 is the value |
| TimeDisplay.SecondsRoundTrip | mainwindow.cpp:151 | seconds scaled to milliseconds and divided back are unchanged |
| TimeDisplay.MsRoundTrip | mainwindow.cpp:80-82 | milliseconds divided to seconds and scaled back are no further from zero and less than 1000 away |
| TimeDisplay.SeekFitsInt64 | mainwindow.cpp:151 | a seek to any `int` slider value is a `qint64` millisecond position |
| TimeDisplay.ScaleBackFitsInt64 | mainwindow.cpp:88-89 | seconds obtained from a `qint64` can be multiplied by 1000 without overflow |
| TimeDisplay.Split | mainwindow.cpp:88-89 | the hour, minute and second fields are below 60 in magnitude, non-negative for a non-negative count; the millisecond field is 0 |
| TimeDisplay.SplitRecomposes | mainwindow.cpp:88-89 | the fields add back up to the count modulo 60 hours, exactly below 216000 s; minutes and seconds give the count modulo an hour |
| TimeDisplay.FormatFor | mainwindow.cpp:90-93 | "hh:mm:ss" exactly when the total exceeds 3600; with "mm:ss" the hidden hour field is 0 except at exactly 3600, where it is 1 |
| TimeDisplay.FormatForCorrected | mainwindow.cpp:90-93 | the corrected choice: "hh:mm:ss" exactly from 3600 on, so "mm:ss" never hides an hour of a non-negative total |
| TimeDisplay.HoursUpToAnHour | mainwindow.cpp:88-89 | the hour field of a count in [0, 3600] is 0, and 1 at exactly 3600 |
| TimeDisplay.DisplayedFields | mainwindow.cpp:90-95 | "hh:mm:ss" shows hours, minutes, seconds; "mm:ss" shows minutes and seconds |
| TimeDisplay.ShownValue | mainwindow.cpp:88-95 | below 60 hours the fields "hh:mm:ss" shows read back as the count and those of "mm:ss" as the count modulo an hour (fields, not rendered text, from 24 hours on) |
| TimeDisplay.AsWrittenLabelsReadBack | mainwindow.cpp:87-95 | for position <= length < 60 hours and length other than 3600, the fields of both labels read back as their values (not the rendered text from 24 hours on) |
| TimeDisplay.ExactHourShownAsZero | mainwindow.cpp:91-93 | a length of exactly 3600 s gets "mm:ss" and reads "00:00", like an empty track |
| TimeDisplay.CorrectedLabelsReadBack | mainwindow.cpp:91-93 | with the `>= 3600` choice the fields of both labels read back as their values for every length below 60 hours (not the rendered text from 24 hours on) |
| FileNames.LastIndexOf | mainwindow.cpp:139 | -1 exactly when the character is absent; otherwise a position holding it with none after it |
| FileNames.Left | mainwindow.cpp:139 | `QString::left(n)`: always a prefix; n characters for 0 <= n < length; the whole string exactly when n is negative or not below the length |
| FileNames.StripExt | mainwindow.cpp:139 | a name without '.' is unchanged; otherwise the result is the strict prefix before the last '.' |
| FileNames.StripExtRoundTrip | mainwindow.cpp:208 | stripping `base + "." + ext` (ext without '.') gives base back |
| FileNames.StripExtNotIdempotent | mainwindow.cpp:228-229 | for every base name containing '.', stripping `base + "." + ext` twice gives the stripped base, which differs from base |
| Window.SongPath | mainwindow.cpp:262 | the path of a list item ends in ".mp3" and is exactly as long as the folder, "/", the item text and the extension together |
| Window.SongPathStem | mainwindow.cpp:219 | the path's name without extension is the folder plus the item text, whatever dots the item holds |
| Window.VolumeIcon | mainwindow.cpp:159-164 | the mute button shows "muted" exactly when the volume slider value is 0 |
| Window.MainWindow.constructor | mainwindow.cpp:30-49 | not muted, not paused, duration 0, progress range [0, 0], empty list with no current row, no player requests |
| Window.MainWindow.DurationChanged | mainwindow.cpp:71-75 | M_Duration becomes the length in whole seconds and the slider maximum its `int` value; nothing else changes |
| Window.MainWindow.PositionChanged | mainwindow.cpp:77-83 | the slider follows the position only when not being dragged; the labels are refreshed either way |
| Window.MainWindow.UpdateDuration | mainwindow.cpp:85-97 | with a position or a length, both labels get their fields and "hh:mm:ss" exactly when the length exceeds 3600; with neither, nothing changes |
| Window.MainWindow.ToggleMute | mainwindow.cpp:99-111 | isMuted flips, the audio output is told the new value, the icon matches it |
| Window.MainWindow.TogglePlay | mainwindow.cpp:114-126 | isPaused flips; the player is told to play when it was false and to pause when it was true |
| Window.MainWindow.SeekSliderMoved | mainwindow.cpp:149-152 | the player is told to seek to value * 1000 ms, which fits `qint64` and converts back to value |
| Window.MainWindow.VolumeSliderMoved | mainwindow.cpp:155-165 | only the mute icon changes: "muted" exactly when the value is 0; isMuted is untouched |
| Window.MainWindow.ItemClicked | mainwindow.cpp:217-232 | the clicked song's file becomes the source, is played if loaded, the label shows the item text stripped again, the button shows "pause"; isPaused is untouched |
| Window.MainWindow.AddAllSongs | mainwindow.cpp:191-215 | the list is replaced by the stripped names of the listed files, in order, with no current row; playlist label "All Songs"; track count the folder's file count |
| Window.MainWindow.Skip | mainwindow.cpp:242-268 | on a non-empty list the next row (wrapping) becomes current and its song is shown, loaded and played; on an empty list nothing changes |
| Window.MainWindow.Back | mainwindow.cpp:270-288 | on a non-empty list row - 1 with C++ `%` is selected; from row 0 of two or more songs nothing is current and nothing is played; on an empty list nothing changes |
| Window.ClickMuteTwice | mainwindow.cpp:99-111 | two mute clicks restore isMuted, send mute and unmute (or the reverse), and resynchronise the icon |
| Window.ClickPlayTwice | mainwindow.cpp:114-126 | two play/pause clicks restore isPaused after play then pause (or the reverse) |
| Window.SkipThenBack | mainwindow.cpp:242-288 | Back right after Skip returns to the starting row when Skip did not wrap |

## Left out

- Widget, icon-size and style set-up and the signal/slot `connect` wiring (mainwindow.cpp:8-61): toolkit plumbing; only the state the handlers read and write is modelled.
- Playback itself: `QMediaPlayer` and `QAudioOutput` are foreign code. Their calls are recorded in `calls`; `mediaStatus()` becomes the `loaded` parameter of `ItemClicked`; `errorString()` and the `qDebug` output are not modelled.
- Volume as a floating-point fraction (`setVolume(0.5)`, `value / 100.0`, mainwindow.cpp:40 and 157): floating point; only the integer "value 0 means muted icon" rule is kept. The volume slider's own range and value are not modelled.
- `on_actionAdd_File_triggered` (mainwindow.cpp:128-147): a file dialog; its extension stripping is `FileNames.StripExt`.
- `on_pushButton_AddPlaylist_clicked` and `on_pushButton_RemovePlaylist_clicked` (mainwindow.cpp:167-189): an input dialog and a second list widget that no other handler reads.
- Directory scanning in `addAllSongs` and `setFileCountToLabel` (mainwindow.cpp:196-203, 234-240): host file-system I/O; the listing and the file count are parameters of `AddAllSongs`, and the count is kept as a number, not as label text.
- `QTime::toString`: the text itself, and QTime's rule that hours of 24 or more make the time invalid (rendered as an empty string), are not modelled; only the fields and the format choice are.
- `isSliderDown()` is the `sliderDown` parameter of `PositionChanged`; the user's dragging itself is outside the model.
- The item pointer of `itemClicked` is modelled by its row; that the list makes the clicked row current before reporting the click is Qt's behaviour, modelled in `ItemClicked`.
- `SkipWhenSongEnd` (mainwindow.h:58): declared with no definition.
- The destructor and memory management (mainwindow.cpp:64-69).
- The initial text of the labels comes from the form file, which is not part of this model; the constructor starts them empty (`""`, `Unset`).
- Window.MainWindow.UpdateDuration: requires the seconds to be multipliable by 1000 inside `qint64`; beyond that the C++ expression `duration * 1000` is undefined behaviour. Every call from `PositionChanged` meets it (`TimeDisplay.ScaleBackFitsInt64`).

## Findings

| source | as written | input that shows it | evidently intended | confidence | as-written member | corrected member |
|---|---|---|---|---|---|---|
| mainwindow.cpp:274 | `(currentRow - 1) % itemCount` with C++'s truncating `%` | currentRow 0 with two or more songs: the result is -1, the list is left with no current item and nothing is loaded or played | Back wraps from the first song to the last, as Skip wraps from the last to the first | medium, not executed | TrackNav.BackFromFirstRowSelectsNothing | TrackNav.PrevRowWrappedInverse |
| mainwindow.cpp:91 | hours are shown only when `M_Duration > 3600` | a track of exactly 3600 s: the format is "mm:ss" and the total label reads 00:00 | `M_Duration >= 3600`, so a one-hour track shows 01:00:00 | medium, not executed | TimeDisplay.ExactHourShownAsZero | TimeDisplay.CorrectedLabelsReadBack |

The `MainWindow` class keeps both behaviours as written, since it models what
the program does; the corrected definitions `TrackNav.PrevRowWrapped` and
`TimeDisplay.FormatForCorrected` carry the intended properties.

Two further behaviours follow from the code and are stated by the model
rather than corrected: clicking a song strips its already stripped name a
second time (`FileNames.StripExtNotIdempotent`), so a file "Best.Of.mp3",
listed as "Best.Of", shows as "Best" after a click but in full after Skip; and neither `ItemClicked`
nor Skip/Back update `isPaused`, so the play/pause button's next click may
ask the player to play a song that is already playing.
