/** Counting the displayable characters of a pop-on caption. A caption line carries 2-byte
    command tokens; the first three distinct ones must be ENM, RCL and a position code (PAC),
    a token repeated right after itself is skipped (broadcast captions send each command
    twice), and every later token adds its bytes other than filler, or nothing if it is a
    position code. */
module CaptionParser {
  import opened Results
  import opened Scc
  import opened Text

  predicate IsEnm(token: string)
  {
    token == Enm
  }

  predicate IsRcl(token: string)
  {
    token == Rcl
  }

  /** A position code is recognised by its first byte alone. */
  predicate IsPac(token: string)
  {
    Slice(token, 0, 2) in PacFirstBytes
  }

  /** The check the parser applies to the token that moves it out of state 0, 1 or 2. */
  predicate PreambleStep(state: nat, token: string)
    requires state <= 2
  {
    if state == 0 then IsEnm(token) else if state == 1 then IsRcl(token) else IsPac(token)
  }

  /** The two bytes of a token, as the slices [0:2] and [2:4]. */
  function Bytes(token: string): seq<string>
  {
    [Slice(token, 0, 2), Slice(token, 2, 4)]
  }

  /** How many of the given bytes are not filler. */
  function NonFiller(bytes: seq<string>): (n: nat)
    ensures n <= |bytes|
  {
    if |bytes| == 0 then 0
    else NonFiller(bytes[..|bytes| - 1]) + (if bytes[|bytes| - 1] != Filler then 1 else 0)
  }

  /** Characters a token displays. */
  function TokenChars(token: string): nat
  {
    if IsPac(token) then 0 else NonFiller(Bytes(token))
  }

  /** A token shows at most two characters: none if it is a position code, otherwise one for
      each byte that is not filler. */
  lemma TokenCharsMeaning(token: string)
    ensures TokenChars(token) <= 2
    ensures IsPac(token) ==> TokenChars(token) == 0
    ensures !IsPac(token) ==> (TokenChars(token) ==
              (if Slice(token, 0, 2) != Filler then 1 else 0) + (if Slice(token, 2, 4) != Filler then 1 else 0))
  {
    var b := Bytes(token);
    assert b[..1][..0] == [];
    assert b[..|b| - 1] == b[..1] == [b[0]];
    assert NonFiller(b[..1]) == (if b[0] != Filler then 1 else 0);
  }

  /** count_token: a position code counts nothing; otherwise each byte that is not filler
      counts one. */
  method CountToken(token: string) returns (count: nat)
    ensures count == TokenChars(token)
  {
    if IsPac(token) {
      return 0;
    }
    var bytes := Bytes(token);
    count := 0;
    for i := 0 to |bytes|
      invariant count == NonFiller(bytes[..i])
    {
      assert bytes[..i + 1][..i] == bytes[..i];
      if bytes[i] != Filler {
        count := count + 1;
      }
    }
    assert bytes[..|bytes|] == bytes;
  }

  /** The token the parser last kept when it reaches index i. Because a skipped token equals
      the one kept before it, this is simply the previous token ("" at the start). */
  function PrevToken(tokens: seq<string>, i: nat): string
    requires i <= |tokens|
  {
    if i == 0 then "" else tokens[i - 1]
  }

  /** The tokens the parser does not skip: those that differ from the token just before them. */
  function Dedup(tokens: seq<string>): (d: seq<string>)
    ensures |d| <= |tokens|
  {
    if |tokens| == 0 then []
    else
      var i := |tokens| - 1;
      Dedup(tokens[..i]) + (if tokens[i] == PrevToken(tokens, i) then [] else [tokens[i]])
  }

  lemma DedupStep(tokens: seq<string>, i: nat)
    requires i < |tokens|
    ensures Dedup(tokens[..i + 1])
            == Dedup(tokens[..i]) + (if tokens[i] == PrevToken(tokens, i) then [] else [tokens[i]])
  {
    assert tokens[..i + 1][..i] == tokens[..i];
  }

  /** A token equal to the one before it is skipped. */
  lemma SkipStep(tokens: seq<string>, i: nat)
    requires i < |tokens| && tokens[i] == PrevToken(tokens, i)
    ensures Dedup(tokens[..i + 1]) == Dedup(tokens[..i])
    ensures PrevToken(tokens, i + 1) == PrevToken(tokens, i)
  {
    DedupStep(tokens, i);
  }

  /** A token that differs from the one before it is kept. */
  lemma KeepStep(tokens: seq<string>, i: nat)
    requires i < |tokens| && tokens[i] != PrevToken(tokens, i)
    ensures Dedup(tokens[..i + 1]) == Dedup(tokens[..i]) + [tokens[i]]
    ensures PrevToken(tokens, i + 1) == tokens[i]
  {
    DedupStep(tokens, i);
  }

  /** What has been kept of a prefix is kept of the whole. */
  lemma {:induction false} DedupPrefix(tokens: seq<string>, j: nat)
    requires j <= |tokens|
    ensures Dedup(tokens[..j]) <= Dedup(tokens)
    decreases |tokens| - j
  {
    if j < |tokens| {
      DedupStep(tokens, j);
      DedupPrefix(tokens, j + 1);
      assert tokens[..|tokens|] == tokens;
    } else {
      assert tokens[..j] == tokens;
    }
  }

  /** No two neighbours of the kept sequence are equal, and it never starts with "". */
  lemma {:induction false} DedupNoRepeats(tokens: seq<string>)
    ensures forall k :: 0 < k < |Dedup(tokens)| ==> Dedup(tokens)[k] != Dedup(tokens)[k - 1]
    ensures |Dedup(tokens)| > 0 ==> Dedup(tokens)[0] != ""
    ensures |Dedup(tokens)| > 0 && |tokens| > 0 ==> Dedup(tokens)[|Dedup(tokens)| - 1] == tokens[|tokens| - 1]
  {
    if |tokens| > 0 {
      var i := |tokens| - 1;
      var pre := tokens[..i];
      var dp := Dedup(pre);
      DedupNoRepeats(pre);
      if tokens[i] == PrevToken(tokens, i) {
        assert Dedup(tokens) == dp;
        if |dp| > 0 {
          assert dp[|dp| - 1] == pre[i - 1] == tokens[i - 1];
        }
      } else {
        var d := dp + [tokens[i]];
        assert Dedup(tokens) == d;
        if |dp| > 0 {
          assert dp[|dp| - 1] == pre[i - 1] == tokens[i - 1];
          assert d[|d| - 1] != d[|d| - 2];
          forall k | 0 < k < |d|
            ensures d[k] != d[k - 1]
          {
            if k < |dp| {
              assert d[k] == dp[k] && d[k - 1] == dp[k - 1];
            }
          }
        } else if i > 0 {
          DedupEmpty(pre);
          assert |pre[i - 1]| == 0;
        }
      }
    }
  }

  /** Nothing is kept only when every token is "". */
  lemma {:induction false} DedupEmpty(tokens: seq<string>)
    requires |Dedup(tokens)| == 0
    ensures forall k :: 0 <= k < |tokens| ==> |tokens[k]| == 0
  {
    if |tokens| > 0 {
      var i := |tokens| - 1;
      var pre := tokens[..i];
      assert |Dedup(tokens)| == |Dedup(pre)| + (if tokens[i] == PrevToken(tokens, i) then 0 else 1);
      DedupEmpty(pre);
      assert forall k :: 0 <= k < i ==> tokens[k] == pre[k];
      assert i > 0 ==> tokens[i] == tokens[i - 1];
    }
  }

  /** The preamble check on the first three kept tokens, or on as many as there are. */
  predicate PreambleOk(d: seq<string>)
  {
    (|d| > 0 ==> IsEnm(d[0])) && (|d| > 1 ==> IsRcl(d[1])) && (|d| > 2 ==> IsPac(d[2]))
  }

  /** Sum of the characters of the given tokens. */
  function SumChars(tokens: seq<string>): nat
  {
    if |tokens| == 0 then 0 else SumChars(tokens[..|tokens| - 1]) + TokenChars(tokens[|tokens| - 1])
  }

  /** The reference definition of parse_caption: deduplicate, check the preamble, then add
      up the characters of the rest. */
  function CaptionChars(tokens: seq<string>): Result<nat>
  {
    var d := Dedup(tokens);
    if !PreambleOk(d) then Err(PreambleError)
    else if |d| <= 3 then Ok(0)
    else Ok(SumChars(d[3..]))
  }

  lemma SumCharsAppend(kept: seq<string>, token: string)
    requires |kept| >= 3
    ensures SumChars((kept + [token])[3..]) == SumChars(kept[3..]) + TokenChars(token)
  {
    var k := (kept + [token])[3..];
    assert k[..|k| - 1] == kept[3..];
  }

  /** A token that fails its preamble check breaks the preamble of every continuation. */
  lemma BrokenPreamble(kept: seq<string>, token: string, full: seq<string>)
    requires |kept| < 3 && !PreambleStep(|kept|, token)
    requires kept + [token] <= full
    ensures !PreambleOk(full)
  {
    assert full[|kept|] == token;
  }

  /** A token that passes its check extends a good preamble. */
  lemma PreambleGrows(kept: seq<string>, token: string)
    requires |kept| < 3 && PreambleOk(kept) && PreambleStep(|kept|, token)
    ensures PreambleOk(kept + [token])
  {
    var d := kept + [token];
    assert d[|kept|] == token;
    assert forall k :: 0 <= k < |kept| ==> d[k] == kept[k];
  }

  /** Tokens after the third do not take part in the preamble. */
  lemma PreambleKeeps(kept: seq<string>, token: string)
    requires |kept| >= 3 && PreambleOk(kept)
    ensures PreambleOk(kept + [token])
  {
    var d := kept + [token];
    assert d[0] == kept[0] && d[1] == kept[1] && d[2] == kept[2];
  }

  /** What parse_caption knows after the first i tokens, in terms of the tokens kept so
      far: the automaton state (the number of preamble tokens passed, at most 3) and the
      characters counted after the preamble. */
  predicate Scanned(tokens: seq<string>, i: nat, state: nat, charCount: nat)
    requires i <= |tokens|
  {
    var kept := Dedup(tokens[..i]);
    && state == (if |kept| < 3 then |kept| else 3)
    && PreambleOk(kept)
    && charCount == (if |kept| <= 3 then 0 else SumChars(kept[3..]))
  }

  lemma ScanSkip(tokens: seq<string>, i: nat, state: nat, charCount: nat)
    requires i < |tokens| && Scanned(tokens, i, state, charCount) && tokens[i] == PrevToken(tokens, i)
    ensures Scanned(tokens, i + 1, state, charCount)
    ensures PrevToken(tokens, i + 1) == PrevToken(tokens, i)
  {
    SkipStep(tokens, i);
  }

  lemma ScanPreamble(tokens: seq<string>, i: nat, state: nat, charCount: nat)
    requires i < |tokens| && Scanned(tokens, i, state, charCount) && tokens[i] != PrevToken(tokens, i)
    requires state <= 2 && PreambleStep(state, tokens[i])
    ensures Scanned(tokens, i + 1, state + 1, charCount)
    ensures PrevToken(tokens, i + 1) == tokens[i]
  {
    KeepStep(tokens, i);
    PreambleGrows(Dedup(tokens[..i]), tokens[i]);
  }

  lemma ScanBroken(tokens: seq<string>, i: nat, state: nat, charCount: nat)
    requires i < |tokens| && Scanned(tokens, i, state, charCount) && tokens[i] != PrevToken(tokens, i)
    requires state <= 2 && !PreambleStep(state, tokens[i])
    ensures CaptionChars(tokens) == Err(PreambleError)
  {
    KeepStep(tokens, i);
    DedupPrefix(tokens, i + 1);
    BrokenPreamble(Dedup(tokens[..i]), tokens[i], Dedup(tokens));
  }

  lemma ScanText(tokens: seq<string>, i: nat, state: nat, charCount: nat)
    requires i < |tokens| && Scanned(tokens, i, state, charCount) && tokens[i] != PrevToken(tokens, i)
    requires state > 2
    ensures Scanned(tokens, i + 1, state, charCount + TokenChars(tokens[i]))
    ensures PrevToken(tokens, i + 1) == tokens[i]
  {
    KeepStep(tokens, i);
    SumCharsAppend(Dedup(tokens[..i]), tokens[i]);
    PreambleKeeps(Dedup(tokens[..i]), tokens[i]);
  }

  lemma ScanDone(tokens: seq<string>, state: nat, charCount: nat)
    requires Scanned(tokens, |tokens|, state, charCount)
    ensures CaptionChars(tokens) == Ok(charCount)
  {
    assert tokens[..|tokens|] == tokens;
  }

  /** The automaton's variables between two tokens. */
  datatype ScanState = ScanState(prevToken: string, state: nat, charCount: nat)

  /** One token through the automaton: a repeat is skipped, a preamble token is checked,
      and any later token is counted. */
  function ScanToken(sc: ScanState, token: string): Result<ScanState>
  {
    if token == sc.prevToken then Ok(sc)
    else if sc.state <= 2 then
      if PreambleStep(sc.state, token) then Ok(ScanState(token, sc.state + 1, sc.charCount))
      else Err(PreambleError)
    else Ok(ScanState(token, sc.state, sc.charCount + TokenChars(token)))
  }

  /** The automaton run over the tokens, stopping at the first error. */
  function ScanAll(tokens: seq<string>): Result<ScanState>
  {
    if |tokens| == 0 then Ok(ScanState("", 0, 0))
    else
      match ScanAll(tokens[..|tokens| - 1])
      case Err(e) => Err(e)
      case Ok(sc) => ScanToken(sc, tokens[|tokens| - 1])
  }

  /** The automaton agrees with the reference definition on every prefix: while it runs,
      its variables are what Scanned describes, and once it fails the whole caption fails. */
  lemma {:induction false} ScanAllScanned(tokens: seq<string>, i: nat)
    requires i <= |tokens|
    ensures ScanAll(tokens[..i]).Ok? ==>
              var sc := ScanAll(tokens[..i]).value;
              sc.prevToken == PrevToken(tokens, i) && Scanned(tokens, i, sc.state, sc.charCount)
    ensures ScanAll(tokens[..i]).Err? ==> CaptionChars(tokens) == Err(PreambleError)
  {
    if i == 0 {
      assert tokens[..0] == [];
    } else {
      var k := i - 1;
      ScanAllScanned(tokens, k);
      assert tokens[..i][..k] == tokens[..k];
      assert tokens[..i][k] == tokens[k];
      if ScanAll(tokens[..k]).Ok? {
        var sc := ScanAll(tokens[..k]).value;
        assert ScanAll(tokens[..i]) == ScanToken(sc, tokens[k]);
        ScanTokenScanned(tokens, k, sc);
      }
    }
  }

  /** One step of the automaton keeps it in line with the reference definition. */
  lemma ScanTokenScanned(tokens: seq<string>, k: nat, sc: ScanState)
    requires k < |tokens| && sc.prevToken == PrevToken(tokens, k) && Scanned(tokens, k, sc.state, sc.charCount)
    ensures ScanToken(sc, tokens[k]).Ok? ==>
              var sc' := ScanToken(sc, tokens[k]).value;
              sc'.prevToken == PrevToken(tokens, k + 1) && Scanned(tokens, k + 1, sc'.state, sc'.charCount)
    ensures ScanToken(sc, tokens[k]).Err? ==> CaptionChars(tokens) == Err(PreambleError)
  {
    if tokens[k] == sc.prevToken {
      ScanSkip(tokens, k, sc.state, sc.charCount);
    } else if sc.state <= 2 && PreambleStep(sc.state, tokens[k]) {
      ScanPreamble(tokens, k, sc.state, sc.charCount);
    } else if sc.state <= 2 {
      ScanBroken(tokens, k, sc.state, sc.charCount);
    } else {
      ScanText(tokens, k, sc.state, sc.charCount);
    }
  }

  /** The automaton computes the reference count, and fails exactly when it does. */
  lemma ScanAllMatches(tokens: seq<string>)
    ensures ScanAll(tokens).Err? <==> CaptionChars(tokens).Err?
    ensures ScanAll(tokens).Err? ==> CaptionChars(tokens) == Err(PreambleError)
    ensures ScanAll(tokens).Ok? ==> CaptionChars(tokens) == Ok(ScanAll(tokens).value.charCount)
  {
    ScanAllScanned(tokens, |tokens|);
    assert tokens[..|tokens|] == tokens;
    if ScanAll(tokens).Ok? {
      ScanDone(tokens, ScanAll(tokens).value.state, ScanAll(tokens).value.charCount);
    }
  }

  lemma ScanFails(tokens: seq<string>, i: nat)
    requires i <= |tokens| && ScanAll(tokens[..i]).Err?
    ensures CaptionChars(tokens) == Err(PreambleError)
  {
    ScanAllScanned(tokens, i);
  }

  lemma ScanFinishes(tokens: seq<string>, sc: ScanState)
    requires ScanAll(tokens) == Ok(sc)
    ensures CaptionChars(tokens) == Ok(sc.charCount)
  {
    ScanAllMatches(tokens);
  }

  /** parse_caption: a three-state preamble automaton followed by counting. */
  method ParseCaption(tokens: seq<string>) returns (r: Result<nat>)
    ensures r == CaptionChars(tokens)
  {
    var prevToken := "";
    var state: nat := 0;
    var charCount: nat := 0;
    assert tokens[..0] == [];
    for i := 0 to |tokens|
      invariant ScanAll(tokens[..i]) == Ok(ScanState(prevToken, state, charCount))
    {
      assert tokens[..i + 1][..i] == tokens[..i];
      var token := tokens[i];
      if token == prevToken {
        continue;
      }
      prevToken := token;
      if state <= 2 {
        if !PreambleStep(state, token) {
          ScanFails(tokens, i + 1);
          return Err(PreambleError);
        }
        state := state + 1;
      } else {
        var c := CountToken(token);
        charCount := charCount + c;
      }
    }
    assert tokens[..|tokens|] == tokens;
    ScanFinishes(tokens, ScanState(prevToken, state, charCount));
    return Ok(charCount);
  }

  /** The count is at most two characters per token after the preamble. */
  lemma {:induction false} SumCharsBound(tokens: seq<string>)
    ensures SumChars(tokens) <= 2 * |tokens|
  {
    if |tokens| > 0 {
      SumCharsBound(tokens[..|tokens| - 1]);
      TokenCharsMeaning(tokens[|tokens| - 1]);
    }
  }

  /** What parse_caption promises: it fails exactly when one of the first three kept tokens
      breaks the preamble, three kept tokens or fewer give 0, and otherwise the count is the
      sum of the token counts after the third, at most two per token. */
  lemma CaptionCharsMeaning(tokens: seq<string>)
    ensures CaptionChars(tokens).Err? <==> !PreambleOk(Dedup(tokens))
    ensures CaptionChars(tokens).Err? ==> CaptionChars(tokens).error == PreambleError
    ensures CaptionChars(tokens).Ok? && |Dedup(tokens)| <= 3 ==> CaptionChars(tokens).value == 0
    ensures CaptionChars(tokens).Ok? && |Dedup(tokens)| > 3 ==>
              CaptionChars(tokens).value == SumChars(Dedup(tokens)[3..])
    ensures CaptionChars(tokens).Ok? && |Dedup(tokens)| > 3 ==>
              CaptionChars(tokens).value <= 2 * (|Dedup(tokens)| - 3)
  {
    if |Dedup(tokens)| > 3 {
      SumCharsBound(Dedup(tokens)[3..]);
    }
  }

  /** A token sent twice in a row counts once: the second copy changes nothing. */
  lemma RepeatCountsOnce(tokens: seq<string>, t: string)
    ensures Dedup(tokens + [t, t]) == Dedup(tokens + [t])
    ensures CaptionChars(tokens + [t, t]) == CaptionChars(tokens + [t])
  {
    var xs := tokens + [t];
    assert tokens + [t, t] == xs + [t];
    assert (xs + [t])[..|xs|] == xs;
  }
}
