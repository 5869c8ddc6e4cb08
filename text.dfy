/** The string operations that URL parsing and short-code extraction rely on:
    finding a character from the left or from the right, splitting once at a
    separator, stripping a set of characters, and ASCII lower-casing. They are
    stated over sequences, so strings (`seq<char>`) are one instance. */
module Text {
  import opened Wrappers

  /** Position of the first element of `s` that belongs to `targets`. */
  function IndexOfAny<T(==)>(s: seq<T>, targets: set<T>): (r: Option<nat>)
    ensures r.Some? ==> r.value < |s| && s[r.value] in targets
    ensures r.Some? ==> forall j :: 0 <= j < r.value ==> s[j] !in targets
    ensures r.None? ==> forall j :: 0 <= j < |s| ==> s[j] !in targets
  {
    IndexOfAnyFrom(s, targets, 0)
  }

  /** Position of the first element of `s` at or after `from` that belongs
      to `targets`. */
  function IndexOfAnyFrom<T(==)>(s: seq<T>, targets: set<T>, from: nat): (r: Option<nat>)
    requires from <= |s|
    ensures r.Some? ==> from <= r.value < |s| && s[r.value] in targets
    ensures r.Some? ==> forall j :: from <= j < r.value ==> s[j] !in targets
    ensures r.None? ==> forall j :: from <= j < |s| ==> s[j] !in targets
    decreases |s| - from
  {
    if from == |s| then None
    else if s[from] in targets then Some(from)
    else IndexOfAnyFrom(s, targets, from + 1)
  }

  /** Position of the first occurrence of `x` in `s`. */
  function IndexOf<T(==)>(s: seq<T>, x: T): (r: Option<nat>)
    ensures r.Some? <==> x in s
    ensures r.Some? ==> r.value < |s| && s[r.value] == x && x !in s[..r.value]
  {
    IndexOfAny(s, {x})
  }

  /** Position of the last occurrence of `x` in `s`. */
  function LastIndexOf<T(==)>(s: seq<T>, x: T): (r: Option<nat>)
    ensures r.Some? <==> x in s
    ensures r.Some? ==> r.value < |s| && s[r.value] == x && x !in s[r.value + 1..]
  {
    if |s| == 0 then None
    else if s[|s| - 1] == x then Some(|s| - 1)
    else
      var r := LastIndexOf(s[..|s| - 1], x);
      assert s == s[..|s| - 1] + [s[|s| - 1]];
      assert r.Some? ==> s[r.value + 1..] == s[..|s| - 1][r.value + 1..] + [s[|s| - 1]];
      r
  }

  /** The two parts around the first `sep`, as a one-split on a sequence known
      to contain `sep`; a sequence without `sep` stays whole. */
  function SplitOnce<T(==)>(s: seq<T>, sep: T): (parts: (seq<T>, seq<T>))
    ensures sep in s ==> parts.0 + [sep] + parts.1 == s && sep !in parts.0
    ensures sep !in s ==> parts == (s, [])
  {
    match IndexOf(s, sep)
    case None => (s, [])
    case Some(i) =>
      assert s == s[..i] + [sep] + s[i + 1..];
      (s[..i], s[i + 1..])
  }

  /** `s` without its leading elements from `xs`. */
  function TrimStart<T(==)>(s: seq<T>, xs: set<T>): (r: seq<T>)
    ensures |r| <= |s| && r == s[|s| - |r|..]
    ensures forall i :: 0 <= i < |s| - |r| ==> s[i] in xs
    ensures r == [] || r[0] !in xs
  {
    if |s| > 0 && s[0] in xs then
      var r := TrimStart(s[1..], xs);
      assert s[1..][|s| - 1 - |r|..] == s[|s| - |r|..];
      assert forall i :: 1 <= i < |s| - |r| ==> s[i] == s[1..][i - 1];
      r
    else s
  }

  /** `s` without its trailing elements from `xs`. */
  function TrimEnd<T(==)>(s: seq<T>, xs: set<T>): (r: seq<T>)
    ensures |r| <= |s| && r == s[..|r|]
    ensures forall i :: |r| <= i < |s| ==> s[i] in xs
    ensures r == [] || r[|r| - 1] !in xs
  {
    if |s| > 0 && s[|s| - 1] in xs then
      var r := TrimEnd(s[..|s| - 1], xs);
      assert s[..|s| - 1][..|r|] == s[..|r|];
      r
    else s
  }

  /** `s` without the elements from `xs` at either end. */
  function Strip<T(==)>(s: seq<T>, xs: set<T>): (r: seq<T>)
    ensures r == [] || (r[0] !in xs && r[|r| - 1] !in xs)
    ensures (forall i :: 0 <= i < |s| ==> s[i] in xs) ==> r == []
  {
    TrimEnd(TrimStart(s, xs), xs)
  }

  /** Leading elements from `xs` do not change what `TrimStart` leaves. */
  lemma {:induction false} TrimStartSkips<T>(prefix: seq<T>, rest: seq<T>, xs: set<T>)
    requires forall i :: 0 <= i < |prefix| ==> prefix[i] in xs
    ensures TrimStart(prefix + rest, xs) == TrimStart(rest, xs)
  {
    if |prefix| > 0 {
      assert (prefix + rest)[1..] == prefix[1..] + rest;
      TrimStartSkips(prefix[1..], rest, xs);
    } else {
      assert prefix + rest == rest;
    }
  }

  /** Trailing elements from `xs` do not change what `TrimEnd` leaves. */
  lemma {:induction false} TrimEndSkips<T>(rest: seq<T>, suffix: seq<T>, xs: set<T>)
    requires forall i :: 0 <= i < |suffix| ==> suffix[i] in xs
    ensures TrimEnd(rest + suffix, xs) == TrimEnd(rest, xs)
  {
    if |suffix| > 0 {
      var shorter := suffix[..|suffix| - 1];
      assert (rest + suffix)[..|rest + suffix| - 1] == rest + shorter;
      TrimEndSkips(rest, shorter, xs);
    } else {
      assert rest + suffix == rest;
    }
  }

  /** Stripping removes exactly the runs of elements from `xs` at both ends:
      whatever lies between them, neither starting nor ending with such an
      element, is left. */
  lemma StripRuns<T>(prefix: seq<T>, middle: seq<T>, suffix: seq<T>, xs: set<T>)
    requires forall i :: 0 <= i < |prefix| ==> prefix[i] in xs
    requires forall i :: 0 <= i < |suffix| ==> suffix[i] in xs
    requires middle == [] || (middle[0] !in xs && middle[|middle| - 1] !in xs)
    ensures Strip(prefix + middle + suffix, xs) == middle
  {
    assert prefix + middle + suffix == prefix + (middle + suffix);
    TrimStartSkips(prefix, middle + suffix, xs);
    if middle == [] {
      assert middle + suffix == suffix;
      assert TrimStart(suffix, xs) == [];
    } else {
      assert TrimStart(middle + suffix, xs) == middle + suffix;
      TrimEndSkips(middle, suffix, xs);
    }
  }

  /** `s` with every element from `xs` deleted. */
  function RemoveAll<T(==)>(s: seq<T>, xs: set<T>): (r: seq<T>)
    ensures |r| <= |s|
    ensures forall i :: 0 <= i < |r| ==> r[i] in s && r[i] !in xs
    ensures forall i :: 0 <= i < |s| && s[i] !in xs ==> s[i] in r
  {
    if |s| == 0 then []
    else if s[0] in xs then RemoveAll(s[1..], xs)
    else
      assert s == [s[0]] + s[1..];
      [s[0]] + RemoveAll(s[1..], xs)
  }

  /** Deleting elements that do not occur changes nothing. */
  lemma {:induction false} RemoveAbsent<T>(s: seq<T>, xs: set<T>)
    requires forall i :: 0 <= i < |s| ==> s[i] !in xs
    ensures RemoveAll(s, xs) == s
  {
    if |s| > 0 {
      RemoveAbsent(s[1..], xs);
      assert s == [s[0]] + s[1..];
    }
  }

  predicate IsAsciiUpper(c: char) { 'A' <= c <= 'Z' }

  /** The lower-case form of an ASCII letter; every other character is kept. */
  function LowerChar(c: char): (d: char)
    ensures IsAsciiUpper(c) ==> d as int == c as int + 32
    ensures !IsAsciiUpper(c) ==> d == c
  {
    if IsAsciiUpper(c) then (c as int + 32) as char else c
  }

  /** `s` with each ASCII capital replaced by its small letter. */
  function AsciiLower(s: string): (r: string)
    ensures |r| == |s|
    ensures forall i :: 0 <= i < |s| ==> r[i] == LowerChar(s[i]) && !IsAsciiUpper(r[i])
    ensures (forall i :: 0 <= i < |s| ==> !IsAsciiUpper(s[i])) ==> r == s
  {
    if |s| == 0 then [] else [LowerChar(s[0])] + AsciiLower(s[1..])
  }
}
