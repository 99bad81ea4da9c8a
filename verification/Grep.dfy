/**
The matcher of user/grep.c against a declarative reading of its patterns: a pattern is a list of
items, each item spells a piece of the text, and the pieces stand side by side.
*/
module Grep {

  datatype Atom = Lit(c: char) | Any

  datatype Item = One(a: Atom) | Many(a: Atom)

  predicate Fits(a: Atom, c: char) {
    a.Any? || a.c == c
  }

  function AtomOf(c: char): Atom {
    if c == '.' then Any else Lit(c)
  }

  /** The items of a pattern after any leading `^`; a `$` at the very end is no item. */
  function Items(re: string): seq<Item> {
    if re == "" || re == "$" then []
    else if |re| > 1 && re[1] == '*' then [Many(AtomOf(re[0]))] + Items(re[2..])
    else [One(AtomOf(re[0]))] + Items(re[1..])
  }

  /** The pattern ends in a `$` that is not starred. */
  predicate Anchored(re: string) {
    if re == "" then false
    else if |re| > 1 && re[1] == '*' then Anchored(re[2..])
    else if re == "$" then true
    else Anchored(re[1..])
  }

  predicate Piece(x: Item, w: string) {
    (x.One? ==> |w| == 1) && forall i :: 0 <= i < |w| ==> Fits(x.a, w[i])
  }

  function Joined(ws: seq<string>): string {
    if ws == [] then "" else ws[0] + Joined(ws[1..])
  }

  /** w is a row of pieces, one for each item in turn. */
  ghost predicate Spells(xs: seq<Item>, w: string) {
    exists ws: seq<string> :: Row(xs, ws) && Joined(ws) == w
  }

  ghost predicate Row(xs: seq<Item>, ws: seq<string>) {
    |ws| == |xs| && forall i :: 0 <= i < |xs| ==> Piece(xs[i], ws[i])
  }

  /** The pattern spells a prefix of the text, the whole text if it is anchored. */
  ghost predicate Here(re: string, text: string) {
    exists k :: 0 <= k <= |text| && Spells(Items(re), text[..k]) && (Anchored(re) ==> k == |text|)
  }

  /** What match accepts: at the start of the text after `^`, anywhere otherwise. */
  ghost predicate Accepts(re: string, text: string) {
    if re != "" && re[0] == '^' then Here(re[1..], text)
    else exists i :: 0 <= i <= |text| && Here(re, text[i..])
  }

  // ---------------------------------------------------------------------------------
  // Unfolding the reading

  lemma SpellsNone(w: string)
    ensures Spells([], w) <==> w == ""
  {
    if w == "" {
      assert Row([], []) && Joined([]) == w;
    }
  }

  lemma SpellsFirst(x: Item, xs: seq<Item>, w: string, j: int)
    requires 0 <= j <= |w| && Piece(x, w[..j]) && Spells(xs, w[j..])
    ensures Spells([x] + xs, w)
  {
    var ws :| Row(xs, ws) && Joined(ws) == w[j..];
    var row := [w[..j]] + ws;
    assert row[1..] == ws && Joined(row) == w[..j] + w[j..] == w;
    assert Row([x] + xs, row);
  }

  lemma SpellsSplit(x: Item, xs: seq<Item>, w: string) returns (j: int)
    requires Spells([x] + xs, w)
    ensures 0 <= j <= |w| && Piece(x, w[..j]) && Spells(xs, w[j..])
  {
    var ws :| Row([x] + xs, ws) && Joined(ws) == w;
    j := |ws[0]|;
    assert ([x] + xs)[0] == x;
    assert w == ws[0] + Joined(ws[1..]);
    assert w[..j] == ws[0] && w[j..] == Joined(ws[1..]);
    assert Row(xs, ws[1..]) by {
      forall i | 0 <= i < |xs| ensures Piece(xs[i], ws[1..][i]) { assert ([x] + xs)[i + 1] == xs[i]; }
    }
  }

  lemma HereEmpty(text: string)
    ensures Here("", text)
  {
    SpellsNone(text[..0]);
  }

  lemma HereDollar(text: string)
    ensures Here("$", text) <==> text == ""
  {
    if text == "" {
      SpellsNone(text[..0]);
    } else if k :| 0 <= k <= |text| && Spells(Items("$"), text[..k]) && (Anchored("$") ==> k == |text|) {
      SpellsNone(text[..k]);
    }
  }

  /** A prefix spelled from j on, and so from the start. */
  lemma HereFrom(x: Item, re: string, rest: string, text: string, j: int)
    requires Items(re) == [x] + Items(rest) && Anchored(re) == Anchored(rest)
    requires 0 <= j <= |text| && Piece(x, text[..j]) && Here(rest, text[j..])
    ensures Here(re, text)
  {
    var k :| 0 <= k <= |text[j..]| && Spells(Items(rest), text[j..][..k]) && (Anchored(rest) ==> k == |text[j..]|);
    assert text[..j + k][..j] == text[..j] && text[..j + k][j..] == text[j..][..k];
    SpellsFirst(x, Items(rest), text[..j + k], j);
  }

  lemma HereSplit(x: Item, re: string, rest: string, text: string) returns (j: int)
    requires Items(re) == [x] + Items(rest) && Anchored(re) == Anchored(rest) && Here(re, text)
    ensures 0 <= j <= |text| && Piece(x, text[..j]) && Here(rest, text[j..])
  {
    var k :| 0 <= k <= |text| && Spells(Items(re), text[..k]) && (Anchored(re) ==> k == |text|);
    j := SpellsSplit(x, Items(rest), text[..k]);
    assert text[..k][..j] == text[..j] && text[..k][j..] == text[j..][..k - j];
  }

  lemma HereOne(re: string, text: string)
    requires re != "" && re != "$" && !(|re| > 1 && re[1] == '*')
    ensures Here(re, text) <==> text != "" && Fits(AtomOf(re[0]), text[0]) && Here(re[1..], text[1..])
  {
    var x := One(AtomOf(re[0]));
    if text != "" && Fits(AtomOf(re[0]), text[0]) && Here(re[1..], text[1..]) {
      HereFrom(x, re, re[1..], text, 1);
    }
    if Here(re, text) {
      var j := HereSplit(x, re, re[1..], text);
      assert text[..j][0] == text[0];
    }
  }

  /** The text begins with j characters the atom fits, and the rest of the pattern follows. */
  ghost predicate StarAt(a: Atom, rest: string, text: string, j: int) {
    0 <= j <= |text| && (forall i :: 0 <= i < j ==> Fits(a, text[i])) && Here(rest, text[j..])
  }

  lemma HereStar(re: string, text: string)
    requires |re| > 1 && re[1] == '*'
    ensures Here(re, text) <==> exists j :: StarAt(AtomOf(re[0]), re[2..], text, j)
  {
    var x := Many(AtomOf(re[0]));
    if j :| StarAt(AtomOf(re[0]), re[2..], text, j) {
      HereFrom(x, re, re[2..], text, j);
    }
    if Here(re, text) {
      var j := HereSplit(x, re, re[2..], text);
      assert forall i :: 0 <= i < j ==> text[..j][i] == text[i];
      assert StarAt(AtomOf(re[0]), re[2..], text, j);
    }
  }

  // ---------------------------------------------------------------------------------
  // The matcher

  /** matchhere: re at the beginning of text. */
  method MatchHere(re: string, text: string) returns (r: bool)
    ensures r <==> Here(re, text)
    decreases |re|, 0
  {
    if re == "" {
      HereEmpty(text);
      return true;
    }
    if |re| > 1 && re[1] == '*' {
      HereStar(re, text);
      r := MatchStar(re[0], re[2..], text);
      return;
    }
    if re == "$" {
      HereDollar(text);
      return text == "";
    }
    HereOne(re, text);
    if text != "" && (re[0] == '.' || re[0] == text[0]) {
      r := MatchHere(re[1..], text[1..]);
      return;
    }
    return false;
  }

  /** matchstar: c* followed by re at the beginning of text. */
  method MatchStar(c: char, re: string, text: string) returns (r: bool)
    ensures r <==> exists j :: StarAt(AtomOf(c), re, text, j)
    decreases |re|, 1
  {
    var i := 0;
    while true
      invariant 0 <= i <= |text| && forall k :: 0 <= k < i ==> Fits(AtomOf(c), text[k])
      invariant forall j :: 0 <= j < i ==> !StarAt(AtomOf(c), re, text, j)
      decreases |text| - i
    {
      var here := MatchHere(re, text[i..]);
      if here {
        assert StarAt(AtomOf(c), re, text, i);
        return true;
      }
      if i == |text| || !(text[i] == c || c == '.') {
        return false;
      }
      i := i + 1;
    }
  }

  /** match returns 1 exactly on the texts the pattern accepts. */
  method Match(re: string, text: string) returns (r: bool)
    ensures r <==> Accepts(re, text)
  {
    if re != "" && re[0] == '^' {
      r := MatchHere(re[1..], text);
      return;
    }
    var i := 0;
    while true
      invariant 0 <= i <= |text| && forall j :: 0 <= j < i ==> !Here(re, text[j..])
      decreases |text| - i
    {
      var here := MatchHere(re, text[i..]);
      if here {
        return true;
      }
      if i == |text| {
        return false;
      }
      i := i + 1;
    }
  }
}
