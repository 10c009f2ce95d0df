/** The text operations that control files and fan markers go through: trimming
    white space and decimal numbers. */
module Text {
  import opened Common

  /** The Unicode White_Space property, which `str::trim` uses. */
  predicate IsSpace(c: char) {
    '\t' <= c <= '\r' || c == ' ' || c == '\U{0085}' || c == '\U{00A0}' || c == '\U{1680}'
    || '\U{2000}' <= c <= '\U{200A}' || c == '\U{2028}' || c == '\U{2029}' || c == '\U{202F}'
    || c == '\U{205F}' || c == '\U{3000}'
  }

  function TrimStart(s: string): string {
    if s != [] && IsSpace(s[0]) then TrimStart(s[1..]) else s
  }

  function TrimEnd(s: string): string {
    if s != [] && IsSpace(s[|s| - 1]) then TrimEnd(s[..|s| - 1]) else s
  }

  function Trim(s: string): string {
    TrimStart(TrimEnd(s))
  }

  /** Nothing to trim. */
  predicate Tight(s: string) {
    s == [] || (!IsSpace(s[0]) && !IsSpace(s[|s| - 1]))
  }

  lemma {:induction false} TrimEndLast(s: string)
    ensures TrimEnd(s) == [] || !IsSpace(TrimEnd(s)[|TrimEnd(s)| - 1])
  {
    if s != [] && IsSpace(s[|s| - 1]) { TrimEndLast(s[..|s| - 1]); }
  }

  lemma {:induction false} TrimStartEnds(s: string)
    requires s == [] || !IsSpace(s[|s| - 1])
    ensures Tight(TrimStart(s))
  {
    if s != [] && IsSpace(s[0]) { TrimStartEnds(s[1..]); }
  }

  lemma TrimIsTight(s: string)
    ensures Tight(Trim(s))
  {
    TrimEndLast(s);
    TrimStartEnds(TrimEnd(s));
  }

  /** Trimming removes exactly the white space around a text. */
  lemma {:induction false} TrimIs(before: string, s: string, after: string)
    requires Tight(s) && forall c :: c in before || c in after ==> IsSpace(c)
    ensures Trim(before + s + after) == s
    decreases |before| + |after|
  {
    hide IsSpace;
    var line := before + s + after;
    if after != [] {
      assert line[..|line| - 1] == before + s + after[..|after| - 1] && line[|line| - 1] == after[|after| - 1];
      TrimIs(before, s, after[..|after| - 1]);
    } else if before != [] {
      assert line == before + s;
      TrimIs(before[1..], s, []);
      assert before[1..] + s + [] == line[1..] && before[0] in before;
      if s == [] {
        AllSpace(line);
      } else {
        assert TrimEnd(line) == line && TrimEnd(line[1..]) == line[1..];
      }
    } else {
      assert line == s;
    }
  }

  lemma {:induction false} AllSpace(s: string)
    requires forall c :: c in s ==> IsSpace(c)
    ensures TrimEnd(s) == []
  {
    if s != [] {
      assert s[|s| - 1] in s;
      AllSpace(s[..|s| - 1]);
    }
  }

  /** What is read back of a tight value written as a line is that value. */
  lemma TrimLine(s: string)
    requires Tight(s)
    ensures Trim(s + "\n") == s && Trim(s) == s
  {
    var line := s + "\n";
    assert line[..|line| - 1] == s;
    assert TrimEnd(line) == TrimEnd(s) == s;
  }

  // ---------------------------------------------------------------- decimal numbers

  function Digit(d: nat): char
    requires d < 10
  {
    ('0' as int + d) as char
  }

  /** `u64::to_string`. */
  function Decimal(n: nat): string {
    if n < 10 then [Digit(n)] else Decimal(n / 10) + [Digit(n % 10)]
  }

  predicate IsDigit(c: char) { '0' <= c <= '9' }

  function ParseDecimal(s: string): Option<nat> {
    if s == [] || !IsDigit(s[|s| - 1]) then None
    else
      var d := s[|s| - 1] as int - '0' as int;
      if |s| == 1 then Some(d)
      else
        var high := ParseDecimal(s[..|s| - 1]);
        if high.None? then None else Some(10 * high.value + d)
  }

  lemma {:induction false} DecimalRoundTrip(n: nat)
    ensures ParseDecimal(Decimal(n)) == Some(n)
    ensures Decimal(n) != [] && forall i :: 0 <= i < |Decimal(n)| ==> IsDigit(Decimal(n)[i])
  {
    if n >= 10 {
      DecimalRoundTrip(n / 10);
      assert Decimal(n)[..|Decimal(n)| - 1] == Decimal(n / 10);
    }
  }

  ghost function PowerOfTen(n: nat): nat {
    if n == 0 then 1 else 10 * PowerOfTen(n - 1)
  }

  lemma AppendDigit(s: string, c: char)
    requires ParseDecimal(s).Some? && IsDigit(c)
    ensures ParseDecimal(s + [c]) == Some(10 * ParseDecimal(s).value + (c as int - '0' as int))
  {
    assert (s + [c])[..|s|] == s;
  }

  /** Digits count by their place to base ten. */
  lemma {:induction false} DecimalPlaces(high: string, low: string)
    requires ParseDecimal(high).Some? && ParseDecimal(low).Some?
    ensures ParseDecimal(high + low) == Some(ParseDecimal(high).value * PowerOfTen(|low|) + ParseDecimal(low).value)
  {
    var rest, c := low[..|low| - 1], low[|low| - 1];
    var h, d := ParseDecimal(high).value, c as int - '0' as int;
    if |low| == 1 {
      assert high + low == high + [c] && PowerOfTen(1) == 10;
      AppendDigit(high, c);
    } else {
      assert high + low == (high + rest) + [c];
      DecimalPlaces(high, rest);
      AppendDigit(high + rest, c);
      Regroup(h, PowerOfTen(|rest|), ParseDecimal(rest).value, d);
    }
  }

  lemma Regroup(h: nat, p: nat, low: nat, d: nat)
    ensures 10 * (h * p + low) + d == h * (10 * p) + (10 * low + d)
  {
  }

  lemma DecimalIsTight(n: nat)
    ensures Tight(Decimal(n)) && Trim(Decimal(n) + "\n") == Decimal(n)
  {
    DecimalRoundTrip(n);
    TrimLine(Decimal(n));
  }
}
