/** The part of a Qt slider (QAbstractSlider) that the window drives: a range
    and a value that Qt always keeps inside that range. */
module Sliders {

  datatype Slider = Slider(minimum: int, maximum: int, value: int)
  {
    /** Qt's own invariant: the value lies in the range. */
    predicate Valid() { minimum <= value <= maximum }
  }

  /** Qt's `bound`: the point of [lo, hi] nearest to v. */
  function Bound(v: int, lo: int, hi: int): (r: int)
    requires lo <= hi
    ensures lo <= r <= hi
    ensures lo <= v <= hi ==> r == v
    ensures v < lo ==> r == lo
    ensures v > hi ==> r == hi
  {
    if v < lo then lo else if v > hi then hi else v
  }

  /** `setValue(v)`: the range stays; the value becomes v brought into it. */
  function SetValue(s: Slider, v: int): (r: Slider)
    requires s.Valid()
    ensures r.Valid()
    ensures r.minimum == s.minimum && r.maximum == s.maximum
    ensures r.value == v <==> s.minimum <= v <= s.maximum
  {
    s.(value := Bound(v, s.minimum, s.maximum))
  }

  /** `setRange(lo, hi)`: a maximum below the minimum is raised to it, and the
      old value is brought into the new range. */
  function SetRange(s: Slider, lo: int, hi: int): (r: Slider)
    ensures r.Valid()
    ensures r.minimum == lo
    ensures r.maximum == if hi < lo then lo else hi
    ensures r.value == s.value <==> r.minimum <= s.value <= r.maximum
  {
    var top := if hi < lo then lo else hi;
    Slider(lo, top, Bound(s.value, lo, top))
  }

  /** `setMaximum(hi)`: the minimum stays unless hi is below it, in which case
      the range collapses to [hi, hi]. */
  function SetMaximum(s: Slider, hi: int): (r: Slider)
    ensures r.Valid()
    ensures r.maximum == hi
    ensures r.minimum == if hi < s.minimum then hi else s.minimum
    ensures s.minimum <= s.value <= hi ==> r.value == s.value
  {
    SetRange(s, if hi < s.minimum then hi else s.minimum, hi)
  }
}
