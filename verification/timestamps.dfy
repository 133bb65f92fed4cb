/** Timestamps and their text form. A `datetime` is modelled as a count of
    ticks since the earliest representable instant, so it is a `nat` and
    ordered as one. The ISO-8601 text written by `isoformat()` and read back
    by `fromisoformat()` is modelled by a decimal digit string: the store
    only relies on that text being a faithful, exactly reversible encoding. */
module Timestamps {
  import opened Wrappers

  type Timestamp = nat

  predicate IsDigit(c: char) {
    '0' <= c <= '9'
  }

  predicate AllDigits(s: string) {
    forall i :: 0 <= i < |s| ==> IsDigit(s[i])
  }

  function Digit(d: nat): (c: char)
    requires d < 10
    ensures IsDigit(c) && c as int - '0' as int == d
  {
    ('0' as int + d) as char
  }

  /** The text a timestamp is written as (`isoformat()`). */
  function Format(t: Timestamp): (s: string)
    ensures 0 < |s|
    ensures AllDigits(s)
    decreases t
  {
    if t < 10 then [Digit(t)] else Format(t / 10) + [Digit(t % 10)]
  }

  function DigitsValue(s: string): nat
    requires AllDigits(s)
  {
    if |s| == 0 then 0
    else DigitsValue(s[..|s| - 1]) * 10 + (s[|s| - 1] as int - '0' as int)
  }

  /** Reads timestamp text back (`fromisoformat()`); text that is not in
      the format is rejected, as the library raises `ValueError`. */
  function Parse(s: string): (r: Option<Timestamp>)
    ensures r.Some? <==> 0 < |s| && AllDigits(s)
  {
    if 0 < |s| && AllDigits(s) then Some(DigitsValue(s)) else None
  }

  /** Writing a timestamp and reading it back gives the same timestamp. */
  lemma {:induction false} ParseFormat(t: Timestamp)
    ensures Parse(Format(t)) == Some(t)
    decreases t
  {
    if t >= 10 {
      ParseFormat(t / 10);
      var s := Format(t);
      assert s[..|s| - 1] == Format(t / 10);
      assert DigitsValue(Format(t / 10)) == t / 10;
      assert DigitsValue(s) == (t / 10) * 10 + t % 10;
    } else {
      assert DigitsValue(Format(t)) == DigitsValue([]) * 10 + t;
    }
  }
}
