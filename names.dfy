/** The participant list that the "Save Names" button derives from the text
    box: `namesInput.split(',').map(name => name.trim()).filter(Boolean)`. */
module NameList {

  /** The characters `String.prototype.trim` removes: the ECMAScript
      WhiteSpace and LineTerminator code points. */
  const Whitespace: set<char> := {
    '\t', '\n', '\U{B}', '\U{C}', '\r', ' ', '\U{A0}', '\U{1680}',
    '\U{2000}', '\U{2001}', '\U{2002}', '\U{2003}', '\U{2004}', '\U{2005}',
    '\U{2006}', '\U{2007}', '\U{2008}', '\U{2009}', '\U{200A}',
    '\U{2028}', '\U{2029}', '\U{202F}', '\U{205F}', '\U{3000}', '\U{FEFF}'
  }

  predicate IsWhitespace(c: char) {
    c in Whitespace
  }

  /** Number of occurrences of `sep` in `s`. */
  function Count(s: string, sep: char): nat {
    if s == [] then 0 else (if s[0] == sep then 1 else 0) + Count(s[1..], sep)
  }

  /** `pieces.join(sep)`. */
  function Join(pieces: seq<string>, sep: char): string {
    if pieces == [] then []
    else if |pieces| == 1 then pieces[0]
    else pieces[0] + [sep] + Join(pieces[1..], sep)
  }

  /** `s.split(sep)` for a one-character separator: the pieces between the
      separators, so an empty string gives one empty piece and every
      separator starts a new piece. */
  function Split(s: string, sep: char): (pieces: seq<string>)
    ensures |pieces| == Count(s, sep) + 1
    ensures forall i :: 0 <= i < |pieces| ==> sep !in pieces[i]
    ensures Join(pieces, sep) == s
  {
    if s == [] then [[]]
    else
      var rest := Split(s[1..], sep);
      if s[0] == sep then [[]] + rest
      else
        var first := [s[0]] + rest[0];
        assert Join([first] + rest[1..], sep) == [s[0]] + Join(rest, sep) by {
          if |rest| > 1 {
            assert ([first] + rest[1..])[1..] == rest[1..];
          }
        }
        [first] + rest[1..]
  }

  /** `s.trimStart()`: drops the longest all-whitespace prefix. */
  function TrimStart(s: string): (r: string)
    ensures |r| <= |s| && r == s[|s| - |r|..]
    ensures forall i :: 0 <= i < |s| - |r| ==> IsWhitespace(s[i])
    ensures r == [] || !IsWhitespace(r[0])
  {
    if s != [] && IsWhitespace(s[0]) then
      var r := TrimStart(s[1..]);
      assert s[|s| - |r|..] == s[1..][|s| - 1 - |r|..];
      assert forall i :: 1 <= i < |s| - |r| ==> s[i] == s[1..][i - 1];
      r
    else s
  }

  /** `s.trimEnd()`: drops the longest all-whitespace suffix. */
  function TrimEnd(s: string): (r: string)
    ensures |r| <= |s| && r == s[..|r|]
    ensures forall i :: |r| <= i < |s| ==> IsWhitespace(s[i])
    ensures r == [] || !IsWhitespace(r[|r| - 1])
  {
    if s != [] && IsWhitespace(s[|s| - 1]) then
      var r := TrimEnd(s[..|s| - 1]);
      assert s[..|r|] == s[..|s| - 1][..|r|];
      assert forall i :: |r| <= i < |s| - 1 ==> s[i] == s[..|s| - 1][i];
      r
    else s
  }

  /** `s.trim()`: the result has no whitespace at either end and is empty
      exactly when `s` is all whitespace. `TrimInfix` locates it inside `s`. */
  function Trim(s: string): (r: string)
    ensures r == [] || (!IsWhitespace(r[0]) && !IsWhitespace(r[|r| - 1]))
    ensures r == [] <==> forall i :: 0 <= i < |s| ==> IsWhitespace(s[i])
  {
    var t := TrimStart(s);
    var r := TrimEnd(t);
    assert t != [] ==> !IsWhitespace(t[0]);
    r
  }

  /** The trimmed string is the infix of `s` that starts at `lo`, with only
      whitespace before and after it. Together with the ends of `Trim(s)`
      not being whitespace, this fixes `Trim(s)` completely. */
  lemma TrimInfix(s: string) returns (lo: nat)
    ensures lo + |Trim(s)| <= |s|
    ensures Trim(s) == s[lo..lo + |Trim(s)|]
    ensures forall i :: 0 <= i < lo ==> IsWhitespace(s[i])
    ensures forall i :: lo + |Trim(s)| <= i < |s| ==> IsWhitespace(s[i])
  {
    var t := TrimStart(s);
    lo := |s| - |t|;
    var r := TrimEnd(t);
    assert Trim(s) == r;
    assert t == s[lo..];
    assert r == t[..|r|];
    assert s[lo..lo + |r|] == t[..|r|];
    forall i | lo + |r| <= i < |s| ensures IsWhitespace(s[i]) {
      assert s[i] == t[i - lo];
    }
  }

  /** A name as the list keeps it: non-empty, comma-free and trimmed. */
  predicate IsCleanName(n: string) {
    n != [] && ',' !in n && !IsWhitespace(n[0]) && !IsWhitespace(n[|n| - 1])
  }

  /** `.map(name => name.trim())`. */
  function TrimAll(pieces: seq<string>): (r: seq<string>)
    ensures |r| == |pieces|
    ensures forall i :: 0 <= i < |pieces| ==> r[i] == Trim(pieces[i])
  {
    if pieces == [] then [] else [Trim(pieces[0])] + TrimAll(pieces[1..])
  }

  /** `.filter(Boolean)` on strings: keeps the non-empty ones, in order. */
  function DropEmpty(xs: seq<string>): (r: seq<string>)
    ensures |r| <= |xs|
    ensures forall x :: x in r ==> x in xs && x != []
    ensures (forall i :: 0 <= i < |xs| ==> xs[i] != []) ==> r == xs
  {
    if xs == [] then []
    else if xs[0] == [] then DropEmpty(xs[1..])
    else [xs[0]] + DropEmpty(xs[1..])
  }

  /** `filter(Boolean)` keeps every non-empty string as often as it occurs
      and drops every empty one; `DropEmptyAppend` adds that the order is
      kept. */
  lemma {:induction false} DropEmptyCounts(xs: seq<string>)
    ensures multiset(DropEmpty(xs)) == multiset(xs)[[] := 0]
  {
    if xs != [] {
      assert xs == [xs[0]] + xs[1..];
      DropEmptyCounts(xs[1..]);
    }
  }

  /** A trimmed comma-free piece is blank or a clean name. */
  lemma TrimmedPieceClean(p: string)
    requires ',' !in p
    ensures Trim(p) == [] || IsCleanName(Trim(p))
  {
    var lo := TrimInfix(p);
    var r := Trim(p);
    assert ',' !in r by {
      forall i | 0 <= i < |r| ensures r[i] != ',' {
        assert r[i] == p[lo + i];
      }
    }
  }

  lemma {:induction false} DropEmptyClean(xs: seq<string>)
    requires forall i :: 0 <= i < |xs| ==> xs[i] == [] || IsCleanName(xs[i])
    ensures forall i :: 0 <= i < |DropEmpty(xs)| ==> IsCleanName(DropEmpty(xs)[i])
  {
    if xs != [] {
      DropEmptyClean(xs[1..]);
    }
  }

  /** The names saved by `handleNamesSubmit`. */
  function ParseNames(input: string): (names: seq<string>)
    ensures forall i :: 0 <= i < |names| ==> IsCleanName(names[i])
    ensures |names| <= Count(input, ',') + 1
  {
    var pieces := Split(input, ',');
    var trimmed := TrimAll(pieces);
    assert forall i :: 0 <= i < |trimmed| ==> trimmed[i] == [] || IsCleanName(trimmed[i]) by {
      forall i | 0 <= i < |trimmed| ensures trimmed[i] == [] || IsCleanName(trimmed[i]) {
        TrimmedPieceClean(pieces[i]);
      }
    }
    DropEmptyClean(trimmed);
    DropEmpty(trimmed)
  }

  // ---- the split pieces -----------------------------------------------------

  /** Splitting at a separator splits the two sides independently. */
  lemma {:induction false} SplitAppend(a: string, b: string, sep: char)
    ensures Split(a + [sep] + b, sep) == Split(a, sep) + Split(b, sep)
  {
    if a == [] {
      assert a + [sep] + b == [sep] + b;
      assert ([sep] + b)[1..] == b;
    } else {
      var s := a + [sep] + b;
      assert s[0] == a[0];
      assert s[1..] == a[1..] + [sep] + b;
      SplitAppend(a[1..], b, sep);
    }
  }

  /** A separator-free string is a single piece. */
  lemma {:induction false} SplitSegment(w: string, sep: char)
    requires sep !in w
    ensures Split(w, sep) == [w]
  {
  }

  /** `split` undoes `join` when no piece holds the separator. */
  lemma {:induction false} SplitJoin(pieces: seq<string>, sep: char)
    requires pieces != []
    requires forall i :: 0 <= i < |pieces| ==> sep !in pieces[i]
    ensures Split(Join(pieces, sep), sep) == pieces
  {
    SplitSegment(pieces[0], sep);
    if |pieces| > 1 {
      SplitAppend(pieces[0], Join(pieces[1..], sep), sep);
      SplitJoin(pieces[1..], sep);
    }
  }

  // ---- the parsed names -----------------------------------------------------

  lemma {:induction false} DropEmptyAppend(xs: seq<string>, ys: seq<string>)
    ensures DropEmpty(xs + ys) == DropEmpty(xs) + DropEmpty(ys)
  {
    if xs != [] {
      assert (xs + ys)[0] == xs[0];
      assert (xs + ys)[1..] == xs[1..] + ys;
      DropEmptyAppend(xs[1..], ys);
    } else {
      assert xs + ys == ys;
    }
  }

  lemma {:induction false} TrimAllAppend(xs: seq<string>, ys: seq<string>)
    ensures TrimAll(xs + ys) == TrimAll(xs) + TrimAll(ys)
  {
    if xs == [] {
      assert xs + ys == ys;
    } else {
      assert (xs + ys)[0] == xs[0];
      assert (xs + ys)[1..] == xs[1..] + ys;
      TrimAllAppend(xs[1..], ys);
    }
  }

  /** Parsing works segment by segment: the names left of a comma come
      first, then the names right of it, with nothing merged or dropped
      (duplicates included). */
  lemma ParseNamesAppend(a: string, b: string)
    ensures ParseNames(a + [','] + b) == ParseNames(a) + ParseNames(b)
  {
    var pa, pb := Split(a, ','), Split(b, ',');
    SplitAppend(a, b, ',');
    TrimAllAppend(pa, pb);
    DropEmptyAppend(TrimAll(pa), TrimAll(pb));
  }

  /** A comma-free segment contributes its trimmed text, or nothing when it
      is blank. */
  lemma ParseNamesSegment(w: string)
    requires ',' !in w
    ensures ParseNames(w) == if Trim(w) == [] then [] else [Trim(w)]
  {
  }

  /** Trimming an already trimmed name changes nothing. */
  lemma TrimClean(n: string)
    requires n == [] || (!IsWhitespace(n[0]) && !IsWhitespace(n[|n| - 1]))
    ensures Trim(n) == n
  {
  }

  lemma {:induction false} TrimAllClean(names: seq<string>)
    requires forall i :: 0 <= i < |names| ==> IsCleanName(names[i])
    ensures TrimAll(names) == names
  {
  }

  /** A list of clean names survives being joined with commas and parsed
      again: the saved list is exactly the list that was typed. */
  lemma ParseJoinedNames(names: seq<string>)
    requires forall i :: 0 <= i < |names| ==> IsCleanName(names[i])
    ensures ParseNames(Join(names, ',')) == names
  {
    if names != [] {
      SplitJoin(names, ',');
      TrimAllClean(names);
    }
  }

  /** Parsing the saved names again, joined with commas, yields the same
      list. */
  lemma ParseNamesIdempotent(input: string)
    ensures ParseNames(Join(ParseNames(input), ',')) == ParseNames(input)
  {
    ParseJoinedNames(ParseNames(input));
  }

  /** A repeated name is kept once per occurrence: no de-duplication. */
  lemma ParseNamesKeepsDuplicates(n: string)
    requires IsCleanName(n)
    ensures ParseNames(n + [','] + n) == [n, n]
  {
    assert ParseNames(n) == [n] by {
      ParseNamesSegment(n);
      TrimClean(n);
    }
    ParseNamesAppend(n, n);
  }

  /** A blank segment, one of whitespace only, yields no name. */
  lemma ParseNamesBlank(w: string)
    requires forall i :: 0 <= i < |w| ==> IsWhitespace(w[i])
    ensures ParseNames(w) == []
  {
    assert forall i :: 0 <= i < |w| ==> w[i] != ',';
    ParseNamesSegment(w);
  }
}
