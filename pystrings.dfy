/** The Python string operations the loader relies on, with Python's clamping rules:
    slicing never fails, it yields a shorter or an empty string instead. */
module PyStrings {

  function Min(a: nat, b: nat): nat { if a <= b then a else b }

  /** `s[:n]`: the first n characters, or all of s when it is shorter. */
  function Take(s: string, n: nat): (r: string)
    ensures |r| == Min(n, |s|)
    ensures r == s[..|r|]
  {
    if n <= |s| then s[..n] else s
  }

  /** `s[n:]`: what follows the first n characters, empty when s is no longer than n. */
  function Drop(s: string, n: nat): (r: string)
    ensures s == s[..Min(n, |s|)] + r
  {
    if n <= |s| then s[n..] else ""
  }

  /** `s[:-n]` for n >= 1: all but the last n characters, empty when s is no longer than n. */
  function DropLast(s: string, n: nat): (r: string)
    requires n >= 1
    ensures |r| == if |s| > n then |s| - n else 0
    ensures r == s[..|r|]
  {
    if |s| > n then s[..|s| - n] else ""
  }

  /** `first` and `second` are the two sides of `whole` cut at index n, the character at n
      itself being dropped; a `whole` of n characters or fewer is all `first`. */
  predicate CutAt(whole: string, n: nat, first: string, second: string)
  {
    if |whole| > n then |first| == n && whole == first + [whole[n]] + second
    else first == whole && second == ""
  }

  /** `s[:n]` and `s[n + 1:]` are the two sides of the cut at n. */
  lemma SlicesCutAt(s: string, n: nat)
    ensures CutAt(s, n, Take(s, n), Drop(s, n + 1))
  {
    if |s| > n {
      assert s == s[..n] + [s[n]] + s[n + 1..];
    }
  }

  /** The cut determines both sides: nothing else satisfies CutAt. */
  lemma CutAtUnique(whole: string, n: nat, first: string, second: string, first': string, second': string)
    requires CutAt(whole, n, first, second) && CutAt(whole, n, first', second')
    ensures first == first' && second == second'
  {
    if |whole| > n {
      assert first == whole[..n] by { assert whole[..n] == (first + [whole[n]] + second)[..n]; }
      assert first' == whole[..n] by { assert whole[..n] == (first' + [whole[n]] + second')[..n]; }
      assert second == whole[n + 1..] by { assert whole[n + 1..] == (first + [whole[n]] + second)[n + 1..]; }
      assert second' == whole[n + 1..] by { assert whole[n + 1..] == (first' + [whole[n]] + second')[n + 1..]; }
    }
  }

  /** `s.replace(c, d)` for single characters c and d. */
  function Replace(s: string, c: char, d: char): (r: string)
    ensures |r| == |s|
    ensures forall i :: 0 <= i < |s| ==> r[i] == if s[i] == c then d else s[i]
  {
    if s == "" then "" else [if s[0] == c then d else s[0]] + Replace(s[1..], c, d)
  }

  /** Replacing back undoes a replacement whenever the new character did not occur before. */
  lemma ReplaceBack(s: string, c: char, d: char)
    requires d !in s
    ensures Replace(Replace(s, c, d), d, c) == s
  {
    var r := Replace(s, c, d);
    var back := Replace(r, d, c);
    forall i | 0 <= i < |s| ensures back[i] == s[i] {
      assert s[i] != d;
    }
  }

  /** `s.split(sep)` for a one-character separator: never empty, and the pieces hold no `sep`. */
  function Split(s: string, sep: char): (pieces: seq<string>)
    ensures |pieces| >= 1
    ensures forall i :: 0 <= i < |pieces| ==> sep !in pieces[i]
    decreases |s|
  {
    if s == "" then [""]
    else
      var rest := Split(s[1..], sep);
      if s[0] == sep then [""] + rest
      else [[s[0]] + rest[0]] + rest[1..]
  }

  /** `sep.join(pieces)`. */
  ghost function Join(pieces: seq<string>, sep: char): string
    requires |pieces| >= 1
    decreases |pieces|
  {
    if |pieces| == 1 then pieces[0] else pieces[0] + [sep] + Join(pieces[1..], sep)
  }

  /** Joining the pieces of a split gives back the string. */
  lemma {:induction false} JoinSplit(s: string, sep: char)
    ensures Join(Split(s, sep), sep) == s
    decreases |s|
  {
    if s != "" {
      var rest := Split(s[1..], sep);
      JoinSplit(s[1..], sep);
      if s[0] == sep {
        assert ([""] + rest)[1..] == rest;
      } else {
        var pieces := [[s[0]] + rest[0]] + rest[1..];
        assert pieces[1..] == rest[1..];
        if |rest| > 1 {
          assert Join(rest, sep) == rest[0] + [sep] + Join(rest[1..], sep);
        }
        assert s == [s[0]] + s[1..];
      }
    }
  }

  /** Splitting a string built from separator-free pieces gives back the pieces. */
  lemma {:induction false} SplitJoin(pieces: seq<string>, sep: char)
    requires |pieces| >= 1
    requires forall i :: 0 <= i < |pieces| ==> sep !in pieces[i]
    ensures Split(Join(pieces, sep), sep) == pieces
    decreases |pieces|
  {
    if |pieces| == 1 {
      SplitPlain(pieces[0], sep);
    } else {
      SplitJoin(pieces[1..], sep);
      SplitAtFirst(pieces[0], Join(pieces[1..], sep), sep);
      assert [pieces[0]] + pieces[1..] == pieces;
    }
  }

  lemma {:induction false} SplitPlain(p: string, sep: char)
    requires sep !in p
    ensures Split(p, sep) == [p]
    decreases |p|
  {
    if p != "" {
      SplitPlain(p[1..], sep);
      assert [p[0]] + p[1..] == p;
    }
  }

  lemma {:induction false} SplitAtFirst(p: string, t: string, sep: char)
    requires sep !in p
    ensures Split(p + [sep] + t, sep) == [p] + Split(t, sep)
    decreases |p|
  {
    var s := p + [sep] + t;
    if p == "" {
      assert s[1..] == t;
    } else {
      SplitAtFirst(p[1..], t, sep);
      assert s[1..] == p[1..] + [sep] + t;
      assert [p[0]] + p[1..] == p;
    }
  }

  /** A split yields one piece more than there are separators. */
  lemma {:induction false} SplitCount(s: string, sep: char)
    ensures |Split(s, sep)| == multiset(s)[sep] + 1
    decreases |s|
  {
    if s != "" {
      SplitCount(s[1..], sep);
      assert s == [s[0]] + s[1..];
      assert multiset(s) == multiset([s[0]]) + multiset(s[1..]);
    }
  }
}
