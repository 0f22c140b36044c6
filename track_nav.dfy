/** Row arithmetic of the Skip and Back buttons over the song list
    (mainwindow.cpp, skipToNextSong and BackToPreviousSong).
    A row is an index into the list widget; -1 means "no current item", which
    is what QListWidget::currentRow reports when nothing is selected. */
module TrackNav {
  import opened CppInt

  /** The rows a list of `count` items can report as current. */
  predicate IsCurrentRow(row: int, count: int) { -1 <= row < count }

  /** `(currentRow + 1) % itemCount`, with C++'s `%`. */
  function NextRow(row: int, count: int): (r: int)
    requires count > 0
    ensures -count < r < count
    ensures row >= -1 ==> 0 <= r
  {
    TruncRem(row + 1, count)
  }

  /** `(currentRow - 1) % itemCount`, with C++'s `%`: a negative left operand
      gives a negative (or zero) result instead of wrapping. */
  function PrevRow(row: int, count: int): (r: int)
    requires count > 0
    ensures -count < r < count
    ensures row >= 1 ==> 0 <= r
    ensures row <= 1 ==> r <= 0
  {
    TruncRem(row - 1, count)
  }

  /** QListWidget::setCurrentRow: a row of the list becomes current; any other
      value leaves the list with no current item. */
  function SelectRow(row: int, count: nat): (r: int)
    ensures IsCurrentRow(r, count)
    ensures 0 <= r <==> 0 <= row < count
    ensures 0 <= r ==> r == row
  {
    if 0 <= row < count then row else -1
  }

  /** Skip always lands on a row of the list: the next one, wrapping from the
      last row to the first, and going to the first when nothing was current. */
  lemma NextRowSteps(row: int, count: int)
    requires count > 0 && IsCurrentRow(row, count)
    ensures 0 <= NextRow(row, count) < count
    ensures row < count - 1 ==> NextRow(row, count) == row + 1
    ensures row == count - 1 ==> NextRow(row, count) == 0
    ensures row == -1 ==> NextRow(row, count) == 0
  {
    if row < count - 1 {
      DivUnique(row + 1, count, 0, row + 1);
    } else {
      DivUnique(count, count, 1, 0);
    }
    assert TruncRem(row + 1, count) == (row + 1) % count;
  }

  /** Back, as written: from row r >= 1 it goes to r - 1; from row 0 it gives
      -1 (no wrap) unless the list has one item, where -1 % 1 == 0; from no
      current item it gives -2, or 0 on lists of one or two items. */
  lemma PrevRowSteps(row: int, count: int)
    requires count > 0 && IsCurrentRow(row, count)
    ensures row >= 1 ==> PrevRow(row, count) == row - 1
    ensures row == 0 ==> PrevRow(row, count) == (if count == 1 then 0 else -1)
    ensures row == -1 ==> PrevRow(row, count) == (if count <= 2 then 0 else -2)
  {
    if row >= 1 {
      DivUnique(row - 1, count, 0, row - 1);
      assert TruncRem(row - 1, count) == (row - 1) % count;
    } else if row == 0 {
      // C++: -1 % count == -(1 % count)
      if count == 1 { DivUnique(1, 1, 1, 0); } else { DivUnique(1, count, 0, 1); }
      assert TruncRem(-1, count) == -(1 % count);
    } else {
      // C++: -2 % count == -(2 % count)
      if count == 1 {
        DivUnique(2, 1, 2, 0);
      } else if count == 2 {
        DivUnique(2, 2, 1, 0);
      } else {
        DivUnique(2, count, 0, 2);
      }
      assert TruncRem(-2, count) == -(2 % count);
    }
  }

  /** Back undoes Skip and Skip undoes Back everywhere except across the
      first/last boundary. */
  lemma SkipBackInverse(row: int, count: int)
    requires count > 0
    ensures 0 <= row < count - 1 ==> PrevRow(NextRow(row, count), count) == row
    ensures 1 <= row < count ==> NextRow(PrevRow(row, count), count) == row
  {
    if 0 <= row < count - 1 {
      NextRowSteps(row, count);
      PrevRowSteps(row + 1, count);
    }
    if 1 <= row < count {
      PrevRowSteps(row, count);
      NextRowSteps(row - 1, count);
    }
  }

  /** Back from the first row of a list of two or more items leaves no row
      selected, so nothing is loaded or played; a wrapping Back would have
      gone to the last row. */
  lemma BackFromFirstRowSelectsNothing(count: int)
    requires count >= 2
    ensures SelectRow(PrevRow(0, count), count) == -1
    ensures PrevRowWrapped(0, count) == count - 1
  {
    PrevRowSteps(0, count);
  }

  /** Back as evidently intended: the previous row, wrapping from the first
      row to the last (Euclidean remainder). */
  function PrevRowWrapped(row: int, count: int): (r: int)
    requires count > 0
    ensures 0 <= r < count
  {
    (row - 1) % count
  }

  /** The wrapping Back always lands on a row, and on the rows of the list it
      is the exact inverse of Skip, so the two buttons walk a cycle. */
  lemma PrevRowWrappedInverse(row: int, count: int)
    requires count > 0 && IsCurrentRow(row, count)
    ensures 0 <= PrevRowWrapped(row, count) < count
    ensures row >= 0 ==> NextRow(PrevRowWrapped(row, count), count) == row
    ensures row >= 0 ==> PrevRowWrapped(NextRow(row, count), count) == row
  {
    if row >= 1 {
      DivUnique(row - 1, count, 0, row - 1);
    } else if row == 0 {
      DivUnique(-1, count, -1, count - 1);
    }
    if row >= 0 {
      NextRowSteps(row, count);
      var p := PrevRowWrapped(row, count);
      NextRowSteps(p, count);
      var n := NextRow(row, count);
      if n >= 1 {
        DivUnique(n - 1, count, 0, n - 1);
      } else {
        DivUnique(-1, count, -1, count - 1);
      }
    }
  }
}
