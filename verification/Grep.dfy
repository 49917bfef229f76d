/** The regular expression matcher of grep.c: match, matchhere and matchstar. Strings are without their
    terminating NUL. */
module Grep {

  // ---------------------------------------------------------------------------
  // What patterns mean

  /** A piece of a pattern: one character, or any number of them; '.' stands for every character. */
  datatype Piece = One(c: char) | Star(c: char)

  /** A pattern: its pieces, and whether a final '$' ties it to the end of the text. */
  datatype Pattern = Pattern(pieces: seq<Piece>, anchored: bool)

  function Parse(re: string): (p: Pattern)
  {
    if re == "" then Pattern([], false)
    else if |re| > 1 && re[1] == '*' then
      var rest := Parse(re[2..]);
      Pattern([Star(re[0])] + rest.pieces, rest.anchored)
    else if re == "$" then Pattern([], true)
    else
      var rest := Parse(re[1..]);
      Pattern([One(re[0])] + rest.pieces, rest.anchored)
  }

  predicate Stands(c: char, a: char)
  {
    c == '.' || c == a
  }

  /** The strings one piece denotes. */
  predicate InPiece(p: Piece, s: string)
  {
    match p
    case One(c) => |s| == 1 && Stands(c, s[0])
    case Star(c) => forall i :: 0 <= i < |s| ==> Stands(c, s[i])
  }

  /** The language of a sequence of pieces: concatenations of strings from each. */
  predicate InLanguage(ps: seq<Piece>, s: string)
    decreases |ps|
  {
    if ps == [] then s == ""
    else exists k :: 0 <= k <= |s| && InPiece(ps[0], s[..k]) && InLanguage(ps[1..], s[k..])
  }

  /** A prefix of `text` of length `k` is in the pattern's language, and is all of it if anchored. */
  predicate PrefixIn(p: Pattern, text: string, k: nat)
  {
    k <= |text| && InLanguage(p.pieces, text[..k]) && (p.anchored ==> k == |text|)
  }

  ghost predicate Here(re: string, text: string)
  {
    exists k: nat :: PrefixIn(Parse(re), text, k)
  }

  /** Some part of the text is in the language; it starts the text if the pattern starts with '^', and
      ends it if the pattern is anchored. */
  ghost predicate Occurs(re: string, text: string)
  {
    if re != "" && re[0] == '^' then Here(re[1..], text)
    else exists i :: 0 <= i <= |text| && Here(re, text[i..])
  }

  // ---------------------------------------------------------------------------
  // The cases of matchhere

  lemma HereEmpty(text: string)
    ensures Here("", text)
  {
    assert text[..0] == "";
    assert PrefixIn(Parse(""), text, 0);
  }

  lemma HereEnd(text: string)
    ensures Here("$", text) <==> text == ""
  {
    if text == "" {
      assert PrefixIn(Parse("$"), text, 0);
    }
  }

  lemma HereOne(re: string, text: string)
    requires re != "" && re != "$" && !(|re| > 1 && re[1] == '*')
    ensures Here(re, text) <==> text != "" && Stands(re[0], text[0]) && Here(re[1..], text[1..])
  {
    var p, q := Parse(re), Parse(re[1..]);
    assert p.pieces[0] == One(re[0]) && p.pieces[1..] == q.pieces;
    if Here(re, text) {
      var k: nat :| PrefixIn(p, text, k);
      var s := text[..k];
      var j :| 0 <= j <= |s| && InPiece(p.pieces[0], s[..j]) && InLanguage(p.pieces[1..], s[j..]);
      assert s[1..] == text[1..][..k - 1];
      assert PrefixIn(q, text[1..], k - 1);
    }
    if text != "" && Stands(re[0], text[0]) && Here(re[1..], text[1..]) {
      var k: nat :| PrefixIn(q, text[1..], k);
      var s := text[..k + 1];
      assert s[1..] == text[1..][..k];
      assert InPiece(p.pieces[0], s[..1]) && InLanguage(p.pieces[1..], s[1..]);
      assert PrefixIn(p, text, k + 1);
    }
  }

  /** A starred character takes `j` characters for some `j`, and the rest of the pattern goes on there. */
  lemma HereStar(c: char, rest: string, text: string)
    ensures Here([c] + "*" + rest, text) <==>
      exists j :: 0 <= j <= |text| && InPiece(Star(c), text[..j]) && Here(rest, text[j..])
  {
    var re := [c] + "*" + rest;
    assert re[2..] == rest;
    var p, q := Parse(re), Parse(rest);
    assert p.pieces[0] == Star(c) && p.pieces[1..] == q.pieces;
    if Here(re, text) {
      var k: nat :| PrefixIn(p, text, k);
      var s := text[..k];
      var j :| 0 <= j <= |s| && InPiece(p.pieces[0], s[..j]) && InLanguage(p.pieces[1..], s[j..]);
      assert s[..j] == text[..j] && s[j..] == text[j..][..k - j];
      assert PrefixIn(q, text[j..], k - j);
    }
    if j :| 0 <= j <= |text| && InPiece(Star(c), text[..j]) && Here(rest, text[j..]) {
      var k: nat :| PrefixIn(q, text[j..], k);
      var s := text[..j + k];
      assert s[..j] == text[..j] && s[j..] == text[j..][..k];
      assert InPiece(p.pieces[0], s[..j]) && InLanguage(p.pieces[1..], s[j..]);
      assert PrefixIn(p, text, j + k);
    }
  }

  // ---------------------------------------------------------------------------
  // The matcher

  /** Search for `re` anywhere in `text`. */
  method Match(re: string, text: string) returns (found: bool)
    ensures found <==> Occurs(re, text)
  {
    if re != "" && re[0] == '^' {
      found := Matchhere(re[1..], text);
      return;
    }
    var i := 0;
    found := Matchhere(re, text[i..]);
    while !found && i < |text|
      invariant 0 <= i <= |text|
      invariant found <==> Here(re, text[i..])
      invariant forall k :: 0 <= k < i ==> !Here(re, text[k..])
    {
      i := i + 1;
      found := Matchhere(re, text[i..]);
    }
  }

  /** Search for `re` at the start of `text`. */
  method Matchhere(re: string, text: string) returns (found: bool)
    ensures found <==> Here(re, text)
    decreases |re|, 0
  {
    if re == "" {
      HereEmpty(text);
      return true;
    }
    if |re| > 1 && re[1] == '*' {
      assert re == [re[0]] + "*" + re[2..];
      HereStar(re[0], re[2..], text);
      found := Matchstar(re[0], re[2..], text);
      return;
    }
    if re[0] == '$' && |re| == 1 {
      assert re == "$";
      HereEnd(text);
      return text == "";
    }
    HereOne(re, text);
    if text != "" && (re[0] == '.' || re[0] == text[0]) {
      found := Matchhere(re[1..], text[1..]);
      return;
    }
    found := false;
  }

  /** Search for any number of `c` followed by `re` at the start of `text`. */
  method Matchstar(c: char, re: string, text: string) returns (found: bool)
    ensures found <==> exists j :: 0 <= j <= |text| && InPiece(Star(c), text[..j]) && Here(re, text[j..])
    decreases |re|, 1
  {
    var i := 0;
    found := Matchhere(re, text[i..]);
    while !found && i < |text| && (text[i] == c || c == '.')
      invariant 0 <= i <= |text| && InPiece(Star(c), text[..i])
      invariant found <==> Here(re, text[i..])
      invariant forall j :: 0 <= j < i ==> !Here(re, text[j..])
    {
      i := i + 1;
      found := Matchhere(re, text[i..]);
    }
    if !found && i < |text| {
      forall j | i < j <= |text| ensures !InPiece(Star(c), text[..j]) {
        assert text[..j][i] == text[i];
      }
    }
    if found {
      assert InPiece(Star(c), text[..i]) && Here(re, text[i..]);
    }
  }
}
