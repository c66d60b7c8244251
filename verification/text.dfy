/**
 Strings as Go's strings package compares, cuts, splits, joins and trims them: what the modules on scopes, versions
 and paths have in common. Characters stand for the bytes of the original where only equality and order matter.
 */
module Text {
  import opened Wrappers

  /** The `<` of strings: the first difference decides, and a prefix comes first. */
  predicate Less(a: string, b: string) {
    if b == "" then false
    else if a == "" then true
    else if a[0] != b[0] then a[0] < b[0]
    else Less(a[1..], b[1..])
  }

  lemma {:induction false} LessIsOneWay(a: string, b: string)
    requires Less(a, b)
    ensures !Less(b, a) && a != b
  {
    if a != "" && a[0] == b[0] {
      LessIsOneWay(a[1..], b[1..]);
    }
  }

  lemma {:induction false} LessIsTotal(a: string, b: string)
    ensures Less(a, b) || Less(b, a) || a == b
  {
    if a != "" && b != "" && a[0] == b[0] {
      LessIsTotal(a[1..], b[1..]);
      assert a == [a[0]] + a[1..] && b == [b[0]] + b[1..];
    }
  }

  lemma {:induction false} LessIsTransitive(a: string, b: string, c: string)
    requires Less(a, b) && Less(b, c)
    ensures Less(a, c)
  {
    if a != "" && a[0] == b[0] && b[0] == c[0] {
      LessIsTransitive(a[1..], b[1..], c[1..]);
    }
  }

  lemma {:induction false} LessIsIrreflexive(a: string)
    ensures !Less(a, a)
  {
    if a != "" {
      LessIsIrreflexive(a[1..]);
    }
  }

  /** In the first place where they differ the character decides, and a text goes before whatever continues it. */
  lemma {:induction false} LessIs(a: string, b: string, k: nat)
    requires k <= |a| && k <= |b| && a[..k] == b[..k]
    ensures k == |a| && k < |b| ==> Less(a, b)
    ensures k < |a| && k < |b| && a[k] < b[k] ==> Less(a, b)
    ensures k < |a| && k < |b| && a[k] > b[k] ==> !Less(a, b)
    ensures k == |b| ==> !Less(a, b)
  {
    if k > 0 {
      assert a[0] == a[..k][0] && b[0] == b[..k][0];
      assert a[1..][..k - 1] == a[..k][1..] && b[1..][..k - 1] == b[..k][1..];
      LessIs(a[1..], b[1..], k - 1);
    }
  }

  // ----- Cutting strings -----

  predicate HasPrefix(s: string, prefix: string) {
    |prefix| <= |s| && s[..|prefix|] == prefix
  }

  function CutPrefix(s: string, prefix: string): Option<string> {
    if HasPrefix(s, prefix) then Some(s[|prefix|..]) else None
  }

  function IndexOf(s: string, c: char): (k: nat)
    ensures k <= |s| && (forall i :: 0 <= i < k ==> s[i] != c) && (k < |s| ==> s[k] == c)
  {
    if s == "" || s[0] == c then 0 else IndexOf(s[1..], c) + 1
  }

  /** What is before and after the first c. */
  function Cut(s: string, c: char): Option<(string, string)> {
    var k := IndexOf(s, c);
    if k < |s| then Some((s[..k], s[k + 1..])) else None
  }

  lemma {:induction false} CutIsFirst(a: string, c: char, b: string)
    requires c !in a
    ensures Cut(a + [c] + b, c) == Some((a, b))
  {
    var s := a + [c] + b;
    var k := IndexOf(s, c);
    assert s[|a|] == c && forall i :: 0 <= i < |a| ==> s[i] == a[i];
    assert k == |a|;
    assert s[..k] == a && s[k + 1..] == b;
  }

  lemma {:induction false} CutParts(s: string, c: char)
    ensures match Cut(s, c)
            case Some((a, b)) => s == a + [c] + b && c !in a
            case None => c !in s
  {
    var k := IndexOf(s, c);
    if k < |s| {
      assert s == s[..k] + [c] + s[k + 1..];
    }
  }

  /** The pieces of s between the separators. */
  function Split(s: string, sep: char): (parts: seq<string>)
    ensures |parts| >= 1
  {
    match Cut(s, sep)
    case None => [s]
    case Some((first, rest)) =>
      CutParts(s, sep);
      [first] + Split(rest, sep)
  }

  function Join(parts: seq<string>, sep: char): string {
    if parts == [] then ""
    else if |parts| == 1 then parts[0]
    else parts[0] + [sep] + Join(parts[1..], sep)
  }

  /** Splitting undoes joining, for parts without the separator. */
  lemma {:induction false} SplitOfJoin(parts: seq<string>, sep: char)
    requires parts != [] && forall p :: p in parts ==> sep !in p
    ensures Split(Join(parts, sep), sep) == parts
  {
    assert parts[0] in parts && parts == [parts[0]] + parts[1..];
    if |parts| == 1 {
      SplitWhole(parts[0], sep);
    } else {
      assert forall p :: p in parts[1..] ==> p in parts;
      SplitOfJoin(parts[1..], sep);
      SplitOnce(parts[0], sep, Join(parts[1..], sep));
    }
  }

  lemma {:induction false} SplitWhole(s: string, sep: char)
    requires sep !in s
    ensures Split(s, sep) == [s]
  {
    CutParts(s, sep);
  }

  lemma {:induction false} SplitOnce(first: string, sep: char, rest: string)
    requires sep !in first
    ensures Split(first + [sep] + rest, sep) == [first] + Split(rest, sep)
  {
    CutIsFirst(first, sep, rest);
  }

  lemma {:induction false} JoinLacks(parts: seq<string>, sep: char, c: char)
    requires c != sep && forall p :: p in parts ==> c !in p
    ensures c !in Join(parts, sep)
  {
    if |parts| > 1 {
      JoinLacks(parts[1..], sep, c);
    }
  }

  // ----- Trimming -----

  predicate IsSpace(c: char) {
    || '\t' <= c <= '\r' || c == ' ' || c == '\U{85}' || c == '\U{a0}' || c == '\U{1680}'
    || '\U{2000}' <= c <= '\U{200a}' || '\U{2028}' <= c <= '\U{2029}' || c == '\U{202f}' || c == '\U{205f}'
    || c == '\U{3000}'
  }

  function TrimSpace(s: string): string {
    if s != "" && IsSpace(s[0]) then TrimSpace(s[1..])
    else if s != "" && IsSpace(s[|s| - 1]) then TrimSpace(s[..|s| - 1])
    else s
  }

  predicate AreSpaces(s: string) {
    forall i :: 0 <= i < |s| ==> IsSpace(s[i])
  }

  /** Trimming takes spaces at both ends and nothing else. */
  lemma {:induction false} TrimSpaceTakes(s: string) returns (before: string, after: string)
    ensures s == before + TrimSpace(s) + after && AreSpaces(before) && AreSpaces(after)
    decreases |s|
  {
    before, after := "", "";
    if s != "" && IsSpace(s[0]) {
      before, after := TrimSpaceTakes(s[1..]);
      SpacedBefore(s[0], s[1..], before, TrimSpace(s), after);
      before := [s[0]] + before;
      assert s == [s[0]] + s[1..];
    } else if s != "" && IsSpace(s[|s| - 1]) {
      var n := |s| - 1;
      before, after := TrimSpaceTakes(s[..n]);
      SpacedAfter(s[..n], s[n], before, TrimSpace(s), after);
      after := after + [s[n]];
      assert s == s[..n] + [s[n]];
    }
  }

  lemma {:induction false} SpacedBefore(c: char, rest: string, before: string, mid: string, after: string)
    requires rest == before + mid + after && IsSpace(c) && AreSpaces(before)
    ensures [c] + rest == ([c] + before) + mid + after && AreSpaces([c] + before)
  {
  }

  lemma {:induction false} SpacedAfter(rest: string, c: char, before: string, mid: string, after: string)
    requires rest == before + mid + after && IsSpace(c) && AreSpaces(after)
    ensures rest + [c] == before + mid + (after + [c]) && AreSpaces(after + [c])
  {
  }

  /** And it leaves none there. */
  lemma {:induction false} TrimSpaceLeaves(s: string)
    ensures var t := TrimSpace(s); t != "" ==> !IsSpace(t[0]) && !IsSpace(t[|t| - 1])
    decreases |s|
  {
    if s != "" && IsSpace(s[0]) {
      TrimSpaceLeaves(s[1..]);
    } else if s != "" && IsSpace(s[|s| - 1]) {
      TrimSpaceLeaves(s[..|s| - 1]);
    }
  }
}
