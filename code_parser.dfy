/** CodeParser: `parseCodes` of modules/route-ranking.mjs. A raw
    `rdt_station_codes` field is split on commas, every piece is trimmed
    with `String.prototype.trim`, and empty pieces are dropped. */
module CodeParser {
  import opened Wrappers
  import opened SeqLemmas

  /** The characters `String.prototype.trim` removes: ECMAScript's
      WhiteSpace (tab, vertical tab, form feed, space, no-break space,
      byte order mark and the space separators of Unicode category Zs)
      and LineTerminator (LF, CR, U+2028, U+2029). */
  predicate IsJsSpace(c: char) {
    || c == '\U{9}' || c == '\U{A}' || c == '\U{B}' || c == '\U{C}' || c == '\U{D}'
    || c == ' ' || c == '\U{A0}' || c == '\U{1680}'
    || ('\U{2000}' <= c <= '\U{200A}')
    || c == '\U{2028}' || c == '\U{2029}' || c == '\U{202F}' || c == '\U{205F}'
    || c == '\U{3000}' || c == '\U{FEFF}'
  }

  ghost predicate AllSpace(s: string) {
    forall k :: 0 <= k < |s| ==> IsJsSpace(s[k])
  }

  /** Neither end of `s` is whitespace. */
  predicate IsTrimmed(s: string) {
    s == [] || (!IsJsSpace(s[0]) && !IsJsSpace(s[|s| - 1]))
  }

  /** `s.split(sep)` for a one-character separator: the pieces between
      separators, an empty piece wherever two separators (or a separator
      and an end) meet, and `[""]` for the empty string. */
  function Split(s: string, sep: char): (pieces: seq<string>)
    ensures |pieces| >= 1
    decreases |s|
  {
    if s == [] then [""]
    else
      var rest := Split(s[1..], sep);
      if s[0] == sep then [""] + rest else [[s[0]] + rest[0]] + rest[1..]
  }

  /** `pieces.join(sep)`, the inverse of `Split`. */
  function Join(pieces: seq<string>, sep: char): string
    requires |pieces| >= 1
    decreases |pieces|
  {
    if |pieces| == 1 then pieces[0] else pieces[0] + [sep] + Join(pieces[1..], sep)
  }

  lemma {:induction false} SplitJoin(s: string, sep: char)
    ensures Join(Split(s, sep), sep) == s
    ensures forall p :: p in Split(s, sep) ==> sep !in p
    decreases |s|
  {
    if s != [] {
      SplitJoin(s[1..], sep);
      var rest := Split(s[1..], sep);
      if s[0] == sep {
        assert Split(s, sep) == [""] + rest;
        assert ([""] + rest)[1..] == rest;
      } else {
        var pieces := Split(s, sep);
        assert pieces[0] == [s[0]] + rest[0];
        assert pieces[1..] == rest[1..];
        if |rest| == 1 {
          assert Join(pieces, sep) == [s[0]] + rest[0];
        } else {
          assert Join(rest, sep) == rest[0] + [sep] + Join(rest[1..], sep);
        }
        assert s == [s[0]] + s[1..];
      }
    }
  }

  lemma {:induction false} JoinSplit(pieces: seq<string>, sep: char)
    requires |pieces| >= 1
    requires forall p :: p in pieces ==> sep !in p
    ensures Split(Join(pieces, sep), sep) == pieces
    decreases |pieces|
  {
    if |pieces| == 1 {
      SplitWithoutSeparator(pieces[0], sep);
    } else {
      JoinSplit(pieces[1..], sep);
      SplitAppend(pieces[0], Join(pieces[1..], sep), sep);
      SplitWithoutSeparator(pieces[0], sep);
      assert pieces == [pieces[0]] + pieces[1..];
    }
  }

  lemma {:induction false} SplitWithoutSeparator(s: string, sep: char)
    requires sep !in s
    ensures Split(s, sep) == [s]
    decreases |s|
  {
    if s != [] {
      SplitWithoutSeparator(s[1..], sep);
      assert s == [s[0]] + s[1..];
    }
  }

  /** `Split` on a string with a known first character. */
  lemma SplitCons(c: char, s: string, sep: char)
    ensures Split([c] + s, sep) ==
      if c == sep then [""] + Split(s, sep) else [[c] + Split(s, sep)[0]] + Split(s, sep)[1..]
  {
    assert ([c] + s)[1..] == s;
  }

  /** Splitting at one separator splits the two sides independently. */
  lemma {:induction false} SplitAppend(a: string, b: string, sep: char)
    ensures Split(a + [sep] + b, sep) == Split(a, sep) + Split(b, sep)
    decreases |a|
  {
    var m := [sep] + b;
    Associative(a, [sep], b);
    if a == [] {
      assert a + m == m;
      SplitCons(sep, b, sep);
    } else {
      var c, a' := a[0], a[1..];
      SplitAppend(a', b, sep);
      Associative(a', [sep], b);
      ConsOfAppend(a, m);
      var ra, rb := Split(a', sep), Split(b, sep);
      SplitCons(c, a' + m, sep);
      SplitCons(c, a', sep);
      if c == sep {
        Associative([""], ra, rb);
      } else {
        DropFirstOfAppend(ra, rb);
        Associative([[c] + ra[0]], ra[1..], rb);
      }
    }
  }

  /** `s` without its leading whitespace: a suffix of `s`. */
  function TrimStart(s: string): (r: string)
    ensures |r| <= |s| && r == s[|s| - |r|..]
    ensures r == [] || !IsJsSpace(r[0])
    decreases |s|
  {
    if s != [] && IsJsSpace(s[0]) then TrimStart(s[1..]) else s
  }

  /** `s` without its trailing whitespace: a prefix of `s`. */
  function TrimEnd(s: string): (r: string)
    ensures |r| <= |s| && r == s[..|r|]
    ensures r == [] || !IsJsSpace(r[|r| - 1])
    decreases |s|
  {
    if s != [] && IsJsSpace(s[|s| - 1]) then TrimEnd(s[..|s| - 1]) else s
  }

  /** `s.trim()`. */
  function Trim(s: string): (t: string)
    ensures IsTrimmed(t) && |t| <= |s|
  {
    TrimEnd(TrimStart(s))
  }

  lemma {:induction false} TrimStartRemovesSpaces(s: string)
    ensures AllSpace(s[..|s| - |TrimStart(s)|])
    decreases |s|
  {
    if s != [] && IsJsSpace(s[0]) {
      TrimStartRemovesSpaces(s[1..]);
      var n := |s| - |TrimStart(s)|;
      forall k | 0 <= k < n ensures IsJsSpace(s[..n][k]) {
        if k > 0 { assert s[..n][k] == s[1..][..n - 1][k - 1]; }
      }
    }
  }

  lemma {:induction false} TrimEndRemovesSpaces(s: string)
    ensures AllSpace(s[|TrimEnd(s)|..])
    decreases |s|
  {
    if s != [] && IsJsSpace(s[|s| - 1]) {
      var s' := s[..|s| - 1];
      TrimEndRemovesSpaces(s');
      var n := |TrimEnd(s)|;
      forall k | 0 <= k < |s| - n ensures IsJsSpace(s[n..][k]) {
        if k < |s'| - n { assert s[n..][k] == s'[n..][k]; }
      }
    }
  }

  /** What `trim` keeps is one slice of `s`, and what it removes on either
      side is whitespace only. */
  lemma TrimSlice(s: string) returns (i: nat)
    ensures i + |Trim(s)| <= |s| && Trim(s) == s[i..i + |Trim(s)|]
    ensures AllSpace(s[..i]) && AllSpace(s[i + |Trim(s)|..])
  {
    var x := TrimStart(s);
    TrimStartRemovesSpaces(s);
    TrimEndRemovesSpaces(x);
    i := |s| - |x|;
    var n := |Trim(s)|;
    assert x == s[i..];
    assert s[i + n..] == x[n..];
  }

  lemma TrimKeepsTrimmed(s: string)
    requires IsTrimmed(s)
    ensures Trim(s) == s
  {
  }

  /** The code a piece contributes: its trimmed text unless that is empty. */
  function Token(piece: string): (code: seq<string>)
    ensures |code| <= 1 && (code != [] ==> code[0] != "" && IsTrimmed(code[0]))
  {
    var t := Trim(piece);
    if t == "" then [] else [t]
  }

  /** The non-empty trimmed pieces, in order. */
  function Tokens(pieces: seq<string>): seq<string>
    decreases |pieces|
  {
    if pieces == [] then [] else Token(pieces[0]) + Tokens(pieces[1..])
  }

  lemma {:induction false} TokensWellFormed(pieces: seq<string>)
    ensures forall k :: 0 <= k < |Tokens(pieces)| ==> Tokens(pieces)[k] != "" && IsTrimmed(Tokens(pieces)[k])
    decreases |pieces|
  {
    if pieces != [] {
      TokensWellFormed(pieces[1..]);
      var head, tail := Token(pieces[0]), Tokens(pieces[1..]);
      assert Tokens(pieces) == head + tail;
      forall k | |head| <= k < |head + tail|
        ensures (head + tail)[k] == tail[k - |head|]
      {
      }
    }
  }

  lemma {:induction false} TokensAppend(a: seq<string>, b: seq<string>)
    ensures Tokens(a + b) == Tokens(a) + Tokens(b)
    decreases |a|
  {
    if a == [] {
      assert a + b == b;
    } else {
      DropFirstOfAppend(a, b);
      assert (a + b)[0] == a[0];
      assert Tokens(a + b) == Token(a[0]) + Tokens(a[1..] + b);
      TokensAppend(a[1..], b);
      Associative(Token(a[0]), Tokens(a[1..]), Tokens(b));
    }
  }

  /** `parseCodes(str)`: `(str || '').split(',').map(s => s.trim()).filter(Boolean)`. */
  function ParseCodes(raw: Option<string>): seq<string> {
    Tokens(Split(raw.GetOr(""), ','))
  }

  /** Every code is non-empty and carries no surrounding whitespace. */
  lemma ParseCodesWellFormed(raw: Option<string>)
    ensures forall k :: 0 <= k < |ParseCodes(raw)| ==> ParseCodes(raw)[k] != "" && IsTrimmed(ParseCodes(raw)[k])
  {
    TokensWellFormed(Split(raw.GetOr(""), ','));
  }

  /** No token holds a comma. */
  lemma ParseCodesHasNoComma(raw: Option<string>)
    ensures forall c :: c in ParseCodes(raw) ==> ',' !in c
  {
    SplitJoin(raw.GetOr(""), ',');
    TokensInside(Split(raw.GetOr(""), ','));
  }

  lemma {:induction false} TokensInside(pieces: seq<string>)
    requires forall p :: p in pieces ==> ',' !in p
    ensures forall c :: c in Tokens(pieces) ==> ',' !in c
    decreases |pieces|
  {
    if pieces != [] {
      TokensInside(pieces[1..]);
      var t := Trim(pieces[0]);
      var i := TrimSlice(pieces[0]);
      assert ',' !in pieces[0];
      assert forall k :: 0 <= k < |t| ==> t[k] == pieces[0][i + k];
      assert ',' !in t;
      assert Tokens(pieces) == Token(pieces[0]) + Tokens(pieces[1..]);
    }
  }

  /** An absent field, and a field of blanks and commas only, give no codes. */
  lemma {:induction false} ParseCodesBlank(s: string)
    requires forall k :: 0 <= k < |s| ==> s[k] == ',' || IsJsSpace(s[k])
    ensures ParseCodes(Some(s)) == [] && ParseCodes(None) == []
    decreases |s|
  {
    if s != [] {
      ParseCodesBlank(s[1..]);
      if s[0] == ',' {
        SplitAppend([], s[1..], ',');
        assert [] + [','] + s[1..] == s;
        TokensAppend([""], Split(s[1..], ','));
      } else {
        SplitCons(s[0], s[1..], ',');
        assert [s[0]] + s[1..] == s;
        TokensBlankHead(s[0], Split(s[1..], ','));
      }
    }
  }

  /** A blank before the first piece of a blank list keeps it blank. */
  lemma TokensBlankHead(c: char, pieces: seq<string>)
    requires IsJsSpace(c) && pieces != [] && Tokens(pieces) == []
    ensures Tokens([[c] + pieces[0]] + pieces[1..]) == []
  {
    var longer := [[c] + pieces[0]] + pieces[1..];
    assert longer[1..] == pieces[1..];
    assert Trim(pieces[0]) == [];
    BlankPrefix(c, pieces[0]);
  }

  lemma BlankPrefix(c: char, p: string)
    requires IsJsSpace(c) && Trim(p) == []
    ensures Trim([c] + p) == []
  {
    assert ([c] + p)[1..] == p;
  }

  /** Order is kept: the codes of `a,b` are the codes of `a` followed by
      those of `b`. */
  lemma ParseCodesAppend(a: string, b: string)
    ensures ParseCodes(Some(a + "," + b)) == ParseCodes(Some(a)) + ParseCodes(Some(b))
  {
    SplitAppend(a, b, ',');
    TokensAppend(Split(a, ','), Split(b, ','));
  }

  /** Joining trimmed, comma-free codes with commas and parsing gives them
      back, repeats included. */
  lemma {:induction false} ParseCodesJoin(codes: seq<string>)
    requires |codes| >= 1
    requires forall k :: 0 <= k < |codes| ==> codes[k] != "" && IsTrimmed(codes[k]) && ',' !in codes[k]
    ensures ParseCodes(Some(Join(codes, ','))) == codes
    decreases |codes|
  {
    var head := codes[0];
    ParseCodesSingle(head);
    if |codes| > 1 {
      var tail := codes[1..];
      ParseCodesJoin(tail);
      assert Join(codes, ',') == head + "," + Join(tail, ',');
      ParseCodesAppend(head, Join(tail, ','));
      assert codes == [head] + tail;
    }
  }

  /** A single clean code parses to itself. */
  lemma ParseCodesSingle(code: string)
    requires code != "" && IsTrimmed(code) && ',' !in code
    ensures ParseCodes(Some(code)) == [code]
  {
    SplitWithoutSeparator(code, ',');
    TrimKeepsTrimmed(code);
    assert Tokens([code]) == Token(code) + Tokens([]);
  }

  /** Repeated codes are kept: "ASD,UT,ASD" parses to three codes. */
  lemma ParseCodesKeepsRepeats()
    ensures ParseCodes(Some("ASD,UT,ASD")) == ["ASD", "UT", "ASD"]
  {
    assert Join(["ASD", "UT", "ASD"], ',') == "ASD,UT,ASD";
    ParseCodesJoin(["ASD", "UT", "ASD"]);
  }
}
