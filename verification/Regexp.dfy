/** The pattern matcher of user/grep.c (chapter 9 of The Practice of Programming): what a pattern means, and match. */
module Regexp {
  datatype Atom = Any | Lit(c: char)

  /** A character, or any number of them. */
  datatype Item = One(a: Atom) | Star(a: Atom)

  function AtomOf(c: char): Atom {
    if c == '.' then Any else Lit(c)
  }

  predicate Accepts(a: Atom, c: char) {
    a.Any? || a.c == c
  }

  predicate Starred(re: string) {
    |re| >= 2 && re[1] == '*'
  }

  /** What a pattern lists, after any leading '^' and before any final '$'. */
  function Items(re: string): seq<Item> {
    if re == "" then []
    else if Starred(re) then [Star(AtomOf(re[0]))] + Items(re[2..])
    else if re == "$" then []
    else [One(AtomOf(re[0]))] + Items(re[1..])
  }

  /** Does a pattern hold the match to the end of the text? */
  predicate Ends(re: string) {
    if re == "" then false
    else if Starred(re) then Ends(re[2..])
    else re == "$" || Ends(re[1..])
  }

  ghost predicate Fits(item: Item, s: string) {
    match item
    case One(a) => |s| == 1 && Accepts(a, s[0])
    case Star(a) => forall i {:trigger Accepts(a, s[i])} :: 0 <= i < |s| ==> Accepts(a, s[i])
  }

  ghost function Concat(parts: seq<string>): string {
    if parts == [] then "" else parts[0] + Concat(parts[1..])
  }

  /** A string cut into one part for each item. */
  ghost predicate Cut(items: seq<Item>, parts: seq<string>, s: string) {
    |parts| == |items| && Concat(parts) == s && forall i {:trigger Fits(items[i], parts[i])} :: 0 <= i < |items| ==> Fits(items[i], parts[i])
  }

  ghost predicate Denotes(items: seq<Item>, s: string) {
    exists parts {:trigger Cut(items, parts, s)} :: Cut(items, parts, s)
  }

  /** The pattern matches the part of the text from i to j. */
  ghost predicate Found(items: seq<Item>, ends: bool, text: string, i: nat, j: nat) {
    i <= j <= |text| && (ends ==> j == |text|) && Denotes(items, text[i..j])
  }

  ghost predicate FoundFrom(items: seq<Item>, ends: bool, text: string, i: nat) {
    exists j: nat {:trigger Found(items, ends, text, i, j)} :: Found(items, ends, text, i, j)
  }

  /** The declarative meaning of a pattern: some part of the text, from its start after '^' and to its end before '$', is a run
      of what the pattern lists. */
  ghost predicate Matches(re: string, text: string) {
    if re != "" && re[0] == '^' then FoundFrom(Items(re[1..]), Ends(re[1..]), text, 0)
    else exists i: nat {:trigger FoundFrom(Items(re), Ends(re), text, i)} :: FoundFrom(Items(re), Ends(re), text, i)
  }

  // ---------------------------------------------------------------- one item at a time

  lemma DenotesNone(s: string)
    ensures Denotes([], s) <==> s == ""
  {
    assert Cut([], [], "");
  }

  lemma DenotesFirst(item: Item, rest: seq<Item>, p: string, s: string)
    requires Fits(item, p) && Denotes(rest, s)
    ensures Denotes([item] + rest, p + s)
  {
    var parts :| Cut(rest, parts, s);
    var all := [p] + parts;
    assert all[1..] == parts;
    assert Cut([item] + rest, all, p + s);
  }

  lemma DenotesSplit(item: Item, rest: seq<Item>, s: string) returns (k: nat)
    requires Denotes([item] + rest, s)
    ensures k <= |s| && Fits(item, s[..k]) && Denotes(rest, s[k..])
  {
    var all := [item] + rest;
    var parts :| Cut(all, parts, s);
    k := |parts[0]|;
    assert s[..k] == parts[0] && s[k..] == Concat(parts[1..]) && all[0] == item;
    forall i | 0 <= i < |rest| ensures Fits(rest[i], parts[1..][i]) {
      assert all[i + 1] == rest[i];
    }
    assert Cut(rest, parts[1..], s[k..]);
  }

  lemma FoundNone(ends: bool, text: string, t: nat)
    requires t <= |text|
    ensures FoundFrom([], ends, text, t) <==> !ends || t == |text|
  {
    DenotesNone(text[t..t]);
    if ends && t < |text| {
      DenotesNone(text[t..]);
    }
    assert text[t..|text|] == text[t..];
    assert Found([], ends, text, t, t) <==> !ends || t == |text|;
  }

  lemma FoundOne(a: Atom, rest: seq<Item>, ends: bool, text: string, t: nat)
    requires t <= |text|
    ensures FoundFrom([One(a)] + rest, ends, text, t) <==> t < |text| && Accepts(a, text[t]) && FoundFrom(rest, ends, text, t + 1)
  {
    if j: nat :| Found([One(a)] + rest, ends, text, t, j) {
      var k := DenotesSplit(One(a), rest, text[t..j]);
      assert k == 1 && text[t..j][..1][0] == text[t] && text[t..j][1..] == text[t + 1..j];
      assert Found(rest, ends, text, t + 1, j);
    }
    if t < |text| && Accepts(a, text[t]) && FoundFrom(rest, ends, text, t + 1) {
      var j: nat :| Found(rest, ends, text, t + 1, j);
      DenotesFirst(One(a), rest, [text[t]], text[t + 1..j]);
      assert [text[t]] + text[t + 1..j] == text[t..j];
      assert Found([One(a)] + rest, ends, text, t, j);
    }
  }

  /** The text from t to k is a run of a, and the rest is found at k. */
  ghost predicate RunTo(a: Atom, rest: seq<Item>, ends: bool, text: string, t: nat, k: nat) {
    t <= k <= |text| && Fits(Star(a), text[t..k]) && FoundFrom(rest, ends, text, k)
  }

  lemma FoundStar(a: Atom, rest: seq<Item>, ends: bool, text: string, t: nat)
    requires t <= |text|
    ensures FoundFrom([Star(a)] + rest, ends, text, t) <==> exists k: nat {:trigger RunTo(a, rest, ends, text, t, k)} :: RunTo(a, rest, ends, text, t, k)
  {
    if j: nat :| Found([Star(a)] + rest, ends, text, t, j) {
      var k := DenotesSplit(Star(a), rest, text[t..j]);
      assert text[t..j][..k] == text[t..t + k] && text[t..j][k..] == text[t + k..j];
      assert Found(rest, ends, text, t + k, j);
      assert RunTo(a, rest, ends, text, t, t + k);
    }
    if k: nat :| RunTo(a, rest, ends, text, t, k) {
      var j: nat :| Found(rest, ends, text, k, j);
      DenotesFirst(Star(a), rest, text[t..k], text[k..j]);
      assert text[t..k] + text[k..j] == text[t..j];
      assert Found([Star(a)] + rest, ends, text, t, j);
    }
  }

  // ---------------------------------------------------------------- the matcher

  method MatchHere(re: string, text: string, t: nat) returns (r: bool)
    requires t <= |text|
    ensures r <==> FoundFrom(Items(re), Ends(re), text, t)
    decreases |re|, 0
  {
    if re == "" {
      FoundNone(false, text, t);
      return true;
    }
    if |re| >= 2 && re[1] == '*' {
      r := MatchStar(re[0], re[2..], text, t);
      return;
    }
    if re == "$" {
      FoundNone(true, text, t);
      return t == |text|;
    }
    FoundOne(AtomOf(re[0]), Items(re[1..]), Ends(re[1..]), text, t);
    if t < |text| && (re[0] == '.' || re[0] == text[t]) {
      r := MatchHere(re[1..], text, t + 1);
      return;
    }
    return false;
  }

  method MatchStar(c: char, re: string, text: string, t: nat) returns (r: bool)
    requires t <= |text|
    ensures r <==> FoundFrom([Star(AtomOf(c))] + Items(re), Ends(re), text, t)
    decreases |re|, 1
  {
    ghost var a, rest, ends := AtomOf(c), Items(re), Ends(re);
    FoundStar(a, rest, ends, text, t);
    var k := t;
    while true
      invariant t <= k <= |text| && Fits(Star(a), text[t..k])
      invariant forall j {:trigger RunTo(a, rest, ends, text, t, j)} :: t <= j < k ==> !RunTo(a, rest, ends, text, t, j)
      decreases |text| - k
    {
      var here := MatchHere(re, text, k);
      if here {
        assert RunTo(a, rest, ends, text, t, k);
        return true;
      }
      if !(k < |text| && (text[k] == c || c == '.')) {
        forall j | k < j <= |text| ensures !RunTo(a, rest, ends, text, t, j) {
          assert text[t..j][k - t] == text[k] && !Accepts(a, text[t..j][k - t]);
        }
        return false;
      }
      assert text[t..k + 1] == text[t..k] + [text[k]];
      k := k + 1;
    }
  }

  /** match returns 1 exactly when the pattern, read as a pattern, matches the text. */
  method Match(re: string, text: string) returns (r: bool)
    ensures r <==> Matches(re, text)
  {
    if re != "" && re[0] == '^' {
      r := MatchHere(re[1..], text, 0);
      return;
    }
    var t := 0;
    while true
      invariant t <= |text| && forall i {:trigger FoundFrom(Items(re), Ends(re), text, i)} :: 0 <= i < t ==> !FoundFrom(Items(re), Ends(re), text, i)
      decreases |text| - t
    {
      var here := MatchHere(re, text, t);
      if here {
        return true;
      }
      if t == |text| {
        return false;
      }
      t := t + 1;
    }
  }
}
