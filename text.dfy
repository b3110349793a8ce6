/** The few Python string operations the adjuster relies on, with Python's semantics. */
module Text {
  import opened Results

  /** Python's s[i:j] for 0 <= i <= j: bounds past the end are cut back to the length. */
  function Slice(s: string, i: nat, j: nat): (r: string)
    requires i <= j
    ensures |r| == (if j <= |s| then j - i else if i <= |s| then |s| - i else 0)
    ensures forall k :: 0 <= k < |r| ==> r[k] == s[i + k]
  {
    if j <= |s| then s[i..j] else if i <= |s| then s[i..] else ""
  }

  /** Python's s[i:]: empty once i passes the end. */
  function Tail(s: string, i: nat): (r: string)
    ensures |r| == if i <= |s| then |s| - i else 0
    ensures forall k :: 0 <= k < |r| ==> r[k] == s[i + k]
  {
    if i <= |s| then s[i..] else ""
  }

  /** The characters Python's str.strip() removes from 8-bit strings. */
  predicate IsSpace(c: char)
  {
    c == ' ' || c == '\t' || c == '\n' || c == '\r' || c as int == 11 || c as int == 12
  }

  function TrimLeft(s: string): string
  {
    if |s| > 0 && IsSpace(s[0]) then TrimLeft(s[1..]) else s
  }

  function TrimRight(s: string): string
  {
    if |s| > 0 && IsSpace(s[|s| - 1]) then TrimRight(s[..|s| - 1]) else s
  }

  /** Python's str.strip(). */
  function Strip(s: string): string
  {
    TrimRight(TrimLeft(s))
  }

  /** TrimLeft drops exactly the leading blanks. */
  lemma {:induction false} TrimLeftMeaning(s: string)
    ensures var r := TrimLeft(s);
            && |r| <= |s| && r == s[|s| - |r|..]
            && (r == [] || !IsSpace(r[0]))
            && forall k :: 0 <= k < |s| - |r| ==> IsSpace(s[k])
  {
    if |s| > 0 && IsSpace(s[0]) {
      TrimLeftMeaning(s[1..]);
      assert forall k :: 1 <= k < |s| ==> s[k] == s[1..][k - 1];
    }
  }

  /** TrimRight drops exactly the trailing blanks. */
  lemma {:induction false} TrimRightMeaning(s: string)
    ensures var r := TrimRight(s);
            && |r| <= |s| && r == s[..|r|]
            && (r == [] || !IsSpace(r[|r| - 1]))
            && forall k :: |r| <= k < |s| ==> IsSpace(s[k])
  {
    if |s| > 0 && IsSpace(s[|s| - 1]) {
      TrimRightMeaning(s[..|s| - 1]);
    }
  }

  /** Python's line.replace('\t', ' '). */
  function ReplaceTabs(s: string): (r: string)
    ensures |r| == |s|
    ensures forall k :: 0 <= k < |s| ==> r[k] == (if s[k] == '\t' then ' ' else s[k])
  {
    seq(|s|, k requires 0 <= k < |s| => if s[k] == '\t' then ' ' else s[k])
  }

  /** Python's s.split(' '): every single space separates two pieces, so two spaces in
      a row give an empty piece. */
  function Split(s: string): (r: seq<string>)
    ensures |r| >= 1
  {
    if |s| == 0 then [""]
    else
      var rest := Split(s[1..]);
      if s[0] == ' ' then [""] + rest else [[s[0]] + rest[0]] + rest[1..]
  }

  /** The inverse of Split: the pieces glued back with single spaces. */
  function Join(parts: seq<string>): string
  {
    if |parts| == 0 then ""
    else if |parts| == 1 then parts[0]
    else parts[0] + " " + Join(parts[1..])
  }

  /** Splitting loses nothing: joining the pieces gives the string back. */
  lemma {:induction false} SplitJoin(s: string)
    ensures Join(Split(s)) == s
  {
    if |s| > 0 {
      var rest := Split(s[1..]);
      SplitJoin(s[1..]);
      if s[0] == ' ' {
        assert Split(s) == [""] + rest;
        assert Join(Split(s)) == "" + " " + Join(rest);
        assert s == [' '] + s[1..];
      } else if |rest| == 1 {
        assert Split(s) == [[s[0]] + rest[0]];
        assert s == [s[0]] + s[1..];
      } else {
        var parts := Split(s);
        assert parts == [[s[0]] + rest[0]] + rest[1..];
        assert parts[1..] == rest[1..];
        assert Join(rest) == rest[0] + " " + Join(rest[1..]);
        assert s == [s[0]] + s[1..];
      }
    }
  }

  /** No piece of a split holds a space. */
  lemma {:induction false} SplitPieces(s: string)
    ensures forall j, k :: 0 <= j < |Split(s)| && 0 <= k < |Split(s)[j]| ==> Split(s)[j][k] != ' '
  {
    if |s| > 0 {
      var rest := Split(s[1..]);
      SplitPieces(s[1..]);
      var parts := Split(s);
      if s[0] == ' ' {
        assert parts == [""] + rest;
        assert forall j :: 1 <= j < |parts| ==> parts[j] == rest[j - 1];
      } else {
        assert parts == [[s[0]] + rest[0]] + rest[1..];
        assert forall j :: 1 <= j < |parts| ==> parts[j] == rest[j];
        assert forall k :: 1 <= k < |parts[0]| ==> parts[0][k] == rest[0][k - 1];
      }
    }
  }

  predicate IsDigit(c: char)
  {
    '0' <= c <= '9'
  }

  function DigitChar(d: nat): (c: char)
    requires d < 10
    ensures IsDigit(c) && c as int - '0' as int == d
  {
    "0123456789"[d]
  }

  /** Shortest decimal representation of v. */
  function Decimal(v: nat): (r: string)
    ensures |r| >= 1
    ensures forall k :: 0 <= k < |r| ==> IsDigit(r[k])
    ensures v < 10 <==> |r| == 1
    ensures 10 <= v < 100 <==> |r| == 2
  {
    if v < 10 then [DigitChar(v)] else Decimal(v / 10) + [DigitChar(v % 10)]
  }

  /** Python's '%.2d' % v for v >= 0: at least two digits, zero-padded. */
  function Pad2(v: nat): (r: string)
    ensures |r| >= 2
    ensures v < 100 <==> |r| == 2
    ensures forall k :: 0 <= k < |r| ==> IsDigit(r[k])
  {
    if v < 10 then ['0', DigitChar(v)] else Decimal(v)
  }

  predicate AllDigits(s: string)
  {
    forall k :: 0 <= k < |s| ==> IsDigit(s[k])
  }

  /** The number a string of decimal digits spells. */
  function DigitsValue(s: string): nat
    requires AllDigits(s)
  {
    if |s| == 0 then 0
    else DigitsValue(s[..|s| - 1]) * 10 + (s[|s| - 1] as int - '0' as int)
  }

  /** Python's int(s) on a field of a timecode: blanks around it are ignored and it must
      be a non-empty run of decimal digits. */
  function ParseNatural(s: string): (r: Option<nat>)
  {
    var body := Strip(s);
    if |body| > 0 && AllDigits(body) then Some(DigitsValue(body)) else None
  }

  lemma {:induction false} DecimalValue(v: nat)
    ensures DigitsValue(Decimal(v)) == v
  {
    if v >= 10 {
      DecimalValue(v / 10);
      var r := Decimal(v);
      assert r[..|r| - 1] == Decimal(v / 10);
    }
  }

  /** Blanks are all Strip removes: a string that starts and ends with a digit is kept. */
  lemma StripDigits(s: string)
    requires |s| > 0 && AllDigits(s)
    ensures Strip(s) == s
  {
    assert !IsSpace(s[0]);
    assert TrimLeft(s) == s;
    assert !IsSpace(s[|s| - 1]);
  }

  /** Reading back a zero-padded number gives the number. */
  lemma Pad2Value(v: nat)
    ensures ParseNatural(Pad2(v)) == Some(v)
  {
    var p := Pad2(v);
    StripDigits(p);
    if v < 10 {
      assert p == ['0', DigitChar(v)];
      assert p[..1] == ['0'];
      assert p[..1][..0] == [];
      assert DigitsValue(p[..1]) == 0;
    } else {
      DecimalValue(v);
    }
  }
}
