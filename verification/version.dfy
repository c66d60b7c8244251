/** Comparing versions: internal/selfupdate/version.go against Semantic Versioning 2.0.0. */
module Versions {
  import opened Wrappers
  import opened Text

  const MIN_INT := -0x8000_0000_0000_0000

  const MAX_INT := 0x7fff_ffff_ffff_ffff

  // ----- Reading numbers -----

  predicate IsDigit(c: char) {
    '0' <= c <= '9'
  }

  predicate AllDigits(s: string) {
    forall i :: 0 <= i < |s| ==> IsDigit(s[i])
  }

  function Value(s: string): (n: int)
    requires AllDigits(s)
    ensures n >= 0
  {
    if s == "" then 0 else 10 * Value(s[..|s| - 1]) + (s[|s| - 1] as int - '0' as int)
  }

  /** strconv.Atoi: an optional sign and digits, as long as the number fits. */
  function Atoi(s: string): Option<int> {
    var signed := s != "" && (s[0] == '-' || s[0] == '+');
    var digits := if signed then s[1..] else s;
    if digits == "" || !AllDigits(digits) then None
    else
      var n := if signed && s[0] == '-' then -Value(digits) else Value(digits);
      if MIN_INT <= n <= MAX_INT then Some(n) else None
  }

  /** Digits are read with a sign or without one, as long as an int of 64 bits holds the number. */
  lemma {:induction false} AtoiReads(digits: string)
    requires digits != "" && AllDigits(digits)
    ensures Atoi(digits) == if Value(digits) < 0x8000_0000_0000_0000 then Some(Value(digits)) else None
    ensures Atoi("+" + digits) == Atoi(digits)
    ensures Atoi("-" + digits) == if Value(digits) <= 0x8000_0000_0000_0000 then Some(-Value(digits)) else None
  {
    assert ("+" + digits)[1..] == digits && ("-" + digits)[1..] == digits;
    assert IsDigit(digits[0]);
  }

  /** And nothing else is read. */
  lemma {:induction false} AtoiRefuses(s: string, k: nat)
    requires s in ["", "+", "-"] || (k < |s| && !('0' <= s[k] <= '9') && (k > 0 || (s[k] != '+' && s[k] != '-')))
    ensures Atoi(s).None?
  {
    if k < |s| && k > 0 && (s[0] == '-' || s[0] == '+') {
      assert s[1..][k - 1] == s[k];
    }
  }

  /** One digit more makes ten times the number and the digit. */
  lemma {:induction false} ValueOfDigits(s: string, c: char)
    requires AllDigits(s) && '0' <= c <= '9'
    ensures Value(s + [c]) == 10 * Value(s) + (c as int - 48) && Value("") == 0
  {
    assert (s + [c])[..|s|] == s;
  }

  // ----- What the code does -----

  datatype Parsed = Parsed(num: seq<int>, pre: string)

  datatype VersionError = EmptyVersion | NotThreeParts | NotANumber

  function TrimVersionPrefix(s: string): string {
    if |s| > 1 && s[0] == 'v' then s[1..] else s
  }

  function Before(s: string, c: char): string {
    s[..IndexOf(s, c)]
  }

  /** What follows the first c, or nothing. */
  function After(s: string, c: char): string {
    var k := IndexOf(s, c);
    if k < |s| then s[k + 1..] else ""
  }

  predicate Natural(part: string) {
    Atoi(part).Some? && Atoi(part).value >= 0
  }

  function Numbers(parts: seq<string>): (num: seq<int>)
    requires forall p :: p in parts ==> Natural(p)
    ensures |num| == |parts| && forall i :: 0 <= i < |parts| ==> Atoi(parts[i]) == Some(num[i])
  {
    if parts == [] then []
    else
      assert Natural(parts[0]);
      [Atoi(parts[0]).value] + Numbers(parts[1..])
  }

  function Parse(version: string): (r: Result<Parsed, VersionError>)
    ensures r.Ok? ==> |r.value.num| == 3
  {
    var v := TrimVersionPrefix(TrimSpace(version));
    if v == "" then Err(EmptyVersion) else ParseUnbuilt(Before(v, '+'))
  }

  /** The version without build metadata. */
  function ParseUnbuilt(v: string): (r: Result<Parsed, VersionError>)
    ensures r.Ok? ==> |r.value.num| == 3
  {
    var parts := Split(Before(v, '-'), '.');
    if |parts| != 3 then Err(NotThreeParts)
    else if exists p :: p in parts && !Natural(p) then Err(NotANumber)
    else Ok(Parsed(Numbers(parts), After(v, '-')))
  }

  /** A text is read exactly if its three parts are numbers; what follows the first hyphen is kept. */
  lemma {:induction false} PartsDecide(parts: seq<string>, pre: string)
    requires parts != [] && forall p :: p in parts ==> '.' !in p && '-' !in p
    ensures ParseUnbuilt(Join(parts, '.')).Ok? <==> |parts| == 3 && forall p :: p in parts ==> Natural(p)
    ensures ParseUnbuilt(Join(parts, '.')) == Err(NotThreeParts) <==> |parts| != 3
    ensures ParseUnbuilt(Join(parts, '.')).Ok? ==>
              ParseUnbuilt(Join(parts, '.')).value == Parsed(Numbers(parts), "")
    ensures ParseUnbuilt(Join(parts, '.') + "-" + pre) ==
            if ParseUnbuilt(Join(parts, '.')).Ok? then Ok(Parsed(Numbers(parts), pre))
            else ParseUnbuilt(Join(parts, '.'))
  {
    var v := Join(parts, '.');
    SplitOfJoin(parts, '.');
    JoinLacks(parts, '.', '-');
    BeforeAndAfter(v, '-', "");
    BeforeAndAfter(v, '-', "-" + pre);
    assert v + "" == v && v + ("-" + pre) == v + "-" + pre;
  }

  /** Spaces around it, one v before it and build metadata after it do not matter; a v alone is no version. */
  lemma {:induction false} ParseIgnores(v: string, build: string)
    requires v != "" && TrimSpace(v) == v && '+' !in v && v[0] != 'v'
    ensures Parse(v) == ParseUnbuilt(v)
    ensures TrimSpace(v + "+" + build) == v + "+" + build ==> Parse(v + "+" + build) == ParseUnbuilt(v)
    ensures TrimSpace("v" + v) == "v" + v ==> Parse("v" + v) == ParseUnbuilt(v)
    ensures TrimVersionPrefix("v") == "v" && Parse("") == Err(EmptyVersion)
  {
    BeforeAndAfter(v, '+', "");
    BeforeAndAfter(v, '+', "+" + build);
    assert v + "" == v && v + ("+" + build) == v + "+" + build;
    assert ("v" + v)[1..] == v;
  }

  method ParseVersion(version: string) returns (r: Result<Parsed, VersionError>)
    ensures r == Parse(version)
  {
    var v := TrimVersionPrefix(TrimSpace(version));
    if v == "" {
      return Err(EmptyVersion);
    }
    v := Before(v, '+');
    var pre := After(v, '-');
    v := Before(v, '-');
    var parts := Split(v, '.');
    if |parts| != 3 {
      return Err(NotThreeParts);
    }
    var num := ReadNumbers(parts);
    if num.None? {
      return Err(NotANumber);
    }
    r := Ok(Parsed(num.value, pre));
  }

  method ReadNumbers(parts: seq<string>) returns (r: Option<seq<int>>)
    ensures r.Some? <==> forall p :: p in parts ==> Natural(p)
    ensures r.Some? ==> r.value == Numbers(parts)
  {
    var num: seq<int> := [];
    for i := 0 to |parts|
      invariant |num| == i
      invariant forall k :: 0 <= k < i ==> Natural(parts[k]) && Atoi(parts[k]) == Some(num[k])
    {
      var n := Atoi(parts[i]);
      if n.None? || n.value < 0 {
        assert parts[i] in parts && !Natural(parts[i]);
        return None;
      }
      num := num + [n.value];
    }
    assert forall p :: p in parts ==> Natural(p);
    r := Some(num);
  }

  /** The order of two identifiers that differ. */
  function IdOrder(a: string, b: string): int {
    var an, bn := Atoi(a), Atoi(b);
    if an.Some? && bn.Some? then if an.value < bn.value then -1 else 1
    else if an.Some? then -1
    else if bn.Some? then 1
    else if Less(a, b) then -1
    else 1
  }

  function IdsOrder(a: seq<string>, b: seq<string>, i: nat): int
    requires i <= |a| && i <= |b|
    decreases |a| - i
  {
    if i < |a| && i < |b| then if a[i] == b[i] then IdsOrder(a, b, i + 1) else IdOrder(a[i], b[i])
    else if |a| < |b| then -1
    else if |a| > |b| then 1
    else 0
  }

  function PrereleaseOrder(a: string, b: string): int {
    if a == b then 0
    else if a == "" then 1
    else if b == "" then -1
    else IdsOrder(Split(a, '.'), Split(b, '.'), 0)
  }

  method ComparePrerelease(a: string, b: string) returns (order: int)
    ensures order == PrereleaseOrder(a, b)
  {
    if a == b { return 0; }
    if a == "" { return 1; }
    if b == "" { return -1; }
    var ids, others := Split(a, '.'), Split(b, '.');
    var i := 0;
    while i < |ids| && i < |others|
      invariant i <= |ids| && i <= |others|
      invariant IdsOrder(ids, others, 0) == IdsOrder(ids, others, i)
    {
      if ids[i] != others[i] {
        var an, bn := Atoi(ids[i]), Atoi(others[i]);
        if an.Some? && bn.Some? {
          return if an.value < bn.value then -1 else 1;
        }
        if an.Some? { return -1; }
        if bn.Some? { return 1; }
        return if Less(ids[i], others[i]) then -1 else 1;
      }
      i := i + 1;
    }
    if |ids| < |others| { return -1; }
    if |ids| > |others| { return 1; }
    return 0;
  }

  function NumbersOrder(a: seq<int>, b: seq<int>, i: nat): int
    requires i <= |a| == |b|
    decreases |a| - i
  {
    if i == |a| then 0 else if a[i] < b[i] then -1 else if a[i] > b[i] then 1 else NumbersOrder(a, b, i + 1)
  }

  function ParsedOrder(a: Parsed, b: Parsed): int
    requires |a.num| == |b.num|
  {
    var order := NumbersOrder(a.num, b.num, 0);
    if order != 0 then order else PrereleaseOrder(a.pre, b.pre)
  }

  function Compared(a: string, b: string): Result<int, VersionError> {
    match Parse(a)
    case Err(e) => Err(e)
    case Ok(pa) =>
      match Parse(b)
      case Err(e) => Err(e)
      case Ok(pb) => Ok(ParsedOrder(pa, pb))
  }

  method Compare(a: string, b: string) returns (r: Result<int, VersionError>)
    ensures r == Compared(a, b)
  {
    var pa := ParseVersion(a);
    if pa.Err? { return Err(pa.error); }
    var pb := ParseVersion(b);
    if pb.Err? { return Err(pb.error); }
    var an, bn := pa.value.num, pb.value.num;
    for i := 0 to 3
      invariant NumbersOrder(an, bn, 0) == NumbersOrder(an, bn, i)
    {
      if an[i] != bn[i] {
        return Ok(if an[i] < bn[i] then -1 else 1);
      }
    }
    var order := ComparePrerelease(pa.value.pre, pb.value.pre);
    r := Ok(order);
  }

  // ----- What Semantic Versioning says -----

  /** A pre-release identifier of section 9: a number, or letters, digits and hyphens that are not all digits. */
  datatype Ident = Number(n: nat) | Alpha(s: string)

  datatype Version = Version(major: nat, minor: nat, patch: nat, pre: seq<Ident>)

  predicate IdentChar(c: char) {
    IsDigit(c) || 'a' <= c <= 'z' || 'A' <= c <= 'Z' || c == '-'
  }

  /** Digits, letters and the hyphen by their ASCII codes. */
  lemma {:induction false} IdentCharsAre(c: char)
    ensures IdentChar(c) <==>
              c as int == 45 || 48 <= c as int <= 57 || 65 <= c as int <= 90 || 97 <= c as int <= 122
  {
  }

  predicate WellFormedIdent(x: Ident) {
    x.Alpha? ==> (forall i :: 0 <= i < |x.s| ==> IdentChar(x.s[i])) && !AllDigits(x.s)
  }

  ghost predicate WellFormed(v: Version) {
    forall x :: x in v.pre ==> WellFormedIdent(x)
  }

  /** Section 11.4: numbers by size, others by characters, numbers before others. */
  function IdentPrecedence(x: Ident, y: Ident): int {
    match (x, y)
    case (Number(n), Number(m)) => if n < m then -1 else if n > m then 1 else 0
    case (Number(_), Alpha(_)) => -1
    case (Alpha(_), Number(_)) => 1
    case (Alpha(s), Alpha(t)) => if Less(s, t) then -1 else if Less(t, s) then 1 else 0
  }

  /** The first difference decides; failing that, fewer identifiers come first. */
  function ListPrecedence(a: seq<Ident>, b: seq<Ident>): int {
    if a == [] && b == [] then 0
    else if a == [] then -1
    else if b == [] then 1
    else
      var first := IdentPrecedence(a[0], b[0]);
      if first != 0 then first else ListPrecedence(a[1..], b[1..])
  }

  function NatPrecedence(n: nat, m: nat): int {
    if n < m then -1 else if n > m then 1 else 0
  }

  /** Sections 11.2 and 11.3: the numbers from the left; then a release comes after its pre-releases. */
  function Precedence(a: Version, b: Version): int {
    var major, minor := NatPrecedence(a.major, b.major), NatPrecedence(a.minor, b.minor);
    var patch := NatPrecedence(a.patch, b.patch);
    if major != 0 then major
    else if minor != 0 then minor
    else if patch != 0 then patch
    else if a.pre == [] && b.pre == [] then 0
    else if a.pre == [] then 1
    else if b.pre == [] then -1
    else ListPrecedence(a.pre, b.pre)
  }

  // ----- Precedence is a total order -----

  lemma {:induction false} IdentsAreOrdered(x: Ident, y: Ident, z: Ident)
    ensures IdentPrecedence(x, y) == -IdentPrecedence(y, x)
    ensures IdentPrecedence(x, y) == 0 <==> x == y
    ensures IdentPrecedence(x, y) < 0 && IdentPrecedence(y, z) < 0 ==> IdentPrecedence(x, z) < 0
  {
    if x.Alpha? && y.Alpha? {
      LessIsTotal(x.s, y.s);
      if Less(x.s, y.s) { LessIsOneWay(x.s, y.s); }
      if Less(y.s, x.s) { LessIsOneWay(y.s, x.s); }
      LessIsIrreflexive(x.s);
      if z.Alpha? && Less(x.s, y.s) && Less(y.s, z.s) { LessIsTransitive(x.s, y.s, z.s); }
    }
  }

  lemma {:induction false} ListsAreOrdered(a: seq<Ident>, b: seq<Ident>, c: seq<Ident>)
    ensures ListPrecedence(a, b) == -ListPrecedence(b, a)
    ensures ListPrecedence(a, b) == 0 <==> a == b
    ensures ListPrecedence(a, b) < 0 && ListPrecedence(b, c) < 0 ==> ListPrecedence(a, c) < 0
  {
    if a != [] && b != [] {
      IdentsAreOrdered(a[0], b[0], if c == [] then a[0] else c[0]);
      if c != [] {
        IdentsAreOrdered(b[0], c[0], a[0]);
        IdentsAreOrdered(c[0], a[0], b[0]);
      }
      ListsAreOrdered(a[1..], b[1..], if c == [] then [] else c[1..]);
      assert a == [a[0]] + a[1..] && b == [b[0]] + b[1..];
    }
  }

  lemma {:induction false} PrecedenceIsTotalOrder(a: Version, b: Version, c: Version)
    ensures Precedence(a, b) == -Precedence(b, a)
    ensures Precedence(a, b) == 0 <==> a == b
    ensures Precedence(a, b) < 0 && Precedence(b, c) < 0 ==> Precedence(a, c) < 0
  {
    ListsAreOrdered(a.pre, b.pre, c.pre);
  }

  // ----- Versions as text -----

  function Digit(d: nat): char
    requires d < 10
  {
    ('0' as int + d) as char
  }

  function Decimal(n: nat): string {
    if n < 10 then [Digit(n)] else Decimal(n / 10) + [Digit(n % 10)]
  }

  function IdentText(x: Ident): string {
    match x
    case Number(n) => Decimal(n)
    case Alpha(s) => s
  }

  function Texts(xs: seq<Ident>): (ts: seq<string>)
    ensures |ts| == |xs| && forall i :: 0 <= i < |xs| ==> ts[i] == IdentText(xs[i])
  {
    seq(|xs|, i requires 0 <= i < |xs| => IdentText(xs[i]))
  }

  function Core(v: Version): string {
    Join([Decimal(v.major), Decimal(v.minor), Decimal(v.patch)], '.')
  }

  function Pre(v: Version): string {
    Join(Texts(v.pre), '.')
  }

  /** A version as section 2 and 9 write it. */
  function Written(v: Version): string {
    Core(v) + if v.pre == [] then "" else "-" + Pre(v)
  }

  /** Build metadata of section 10, or none. */
  predicate IsBuild(build: string) {
    build == "" || (build[0] == '+' && forall i :: 0 <= i < |build| ==> VersionChar(build[i]))
  }

  predicate VersionChar(c: char) {
    IdentChar(c) || c == '.' || c == '+'
  }

  predicate AllVersionChars(s: string) {
    forall i :: 0 <= i < |s| ==> VersionChar(s[i])
  }

  lemma {:induction false} DecimalReads(n: nat)
    ensures Decimal(n) != "" && AllDigits(Decimal(n)) && Value(Decimal(n)) == n
    ensures Atoi(Decimal(n)) == if n <= MAX_INT then Some(n) else None
  {
    if n >= 10 {
      DecimalReads(n / 10);
      assert Decimal(n)[..|Decimal(n)| - 1] == Decimal(n / 10);
    } else {
      assert Value([Digit(n)][..0]) == 0;
    }
    assert IsDigit(Decimal(n)[0]);
  }

  /** The code reads a number exactly where there is one: not in a hyphen before digits, nor past the largest int. */
  predicate Ordinary(x: Ident) {
    Atoi(IdentText(x)).Some? <==> x.Number?
  }

  lemma {:induction false} IdentTextsDiffer(x: Ident, y: Ident)
    requires WellFormedIdent(x) && WellFormedIdent(y)
    ensures IdentText(x) == IdentText(y) <==> x == y
  {
    if x.Number? { DecimalReads(x.n); }
    if y.Number? { DecimalReads(y.n); }
  }

  lemma {:induction false} IdOrderIsPrecedence(x: Ident, y: Ident)
    requires WellFormedIdent(x) && WellFormedIdent(y) && Ordinary(x) && Ordinary(y) && x != y
    ensures IdOrder(IdentText(x), IdentText(y)) == IdentPrecedence(x, y)
  {
    if x.Number? { DecimalReads(x.n); }
    if y.Number? { DecimalReads(y.n); }
    if x.Alpha? && y.Alpha? {
      LessIsTotal(x.s, y.s);
    }
  }

  predicate OrderedRight(y: Ident, x: Ident) {
    x == y || IdOrder(IdentText(y), IdentText(x)) == IdentPrecedence(y, x)
  }

  /** The code orders an identifier right against every ordinary one exactly if it is ordinary itself. */
  lemma {:induction false} OrderedRightExactly(x: Ident)
    requires WellFormedIdent(x)
    ensures Ordinary(x) <==>
            forall y {:trigger OrderedRight(y, x)} :: WellFormedIdent(y) && Ordinary(y) ==> OrderedRight(y, x)
  {
    if Ordinary(x) {
      forall y | WellFormedIdent(y) && Ordinary(y)
        ensures OrderedRight(y, x)
      {
        if x != y { IdOrderIsPrecedence(y, x); }
      }
    } else if x.Number? {
      DecimalReads(x.n);
      var y := Alpha("-");
      assert !IsDigit(y.s[0]) && Less("-", IdentText(x));
      assert WellFormedIdent(y) && Ordinary(y) && !OrderedRight(y, x);
    } else {
      DecimalReads(0);
      assert x.s != "" && x.s[0] != '+';
      assert WellFormedIdent(Number(0)) && Ordinary(Number(0)) && !OrderedRight(Number(0), x);
    }
  }

  // ----- Parsing undoes writing -----

  lemma {:induction false} BeforeAndAfter(a: string, c: char, rest: string)
    requires c !in a && (rest != "" ==> rest[0] == c)
    ensures Before(a + rest, c) == a && After(a + rest, c) == if rest == "" then "" else rest[1..]
  {
    if rest == "" {
      CutParts(a, c);
      assert a + rest == a;
      assert a[..|a|] == a;
    } else {
      CutIsFirst(a, c, rest[1..]);
      assert a + rest == a + [c] + rest[1..];
    }
  }

  lemma {:induction false} NoSpaceToTrim(s: string)
    requires AllVersionChars(s)
    ensures TrimSpace(s) == s
  {
  }

  lemma {:induction false} Stripped(prefix: string, bare: string)
    requires AllVersionChars(bare) && bare != "" && IsDigit(bare[0]) && (prefix == "" || prefix == "v")
    ensures TrimVersionPrefix(TrimSpace(prefix + bare)) == bare
  {
    assert AllVersionChars(prefix + bare);
    NoSpaceToTrim(prefix + bare);
    if prefix == "" {
      assert prefix + bare == bare;
    } else {
      assert (prefix + bare)[1..] == bare;
    }
  }

  lemma {:induction false} JoinOfVersionChars(parts: seq<string>)
    requires forall p :: p in parts ==> AllVersionChars(p)
    ensures AllVersionChars(Join(parts, '.'))
  {
    if |parts| > 1 {
      JoinOfVersionChars(parts[1..]);
    }
    if parts != [] {
      assert parts[0] in parts;
    }
  }

  lemma {:induction false} DecimalChars(n: nat)
    ensures var t := Decimal(n);
            t != "" && IsDigit(t[0]) && AllVersionChars(t) && '.' !in t && '-' !in t && '+' !in t
  {
    DecimalReads(n);
  }

  lemma {:induction false} CoreChars(v: Version)
    ensures Core(v) != "" && IsDigit(Core(v)[0]) && AllVersionChars(Core(v)) && '-' !in Core(v) && '+' !in Core(v)
  {
    var parts := [Decimal(v.major), Decimal(v.minor), Decimal(v.patch)];
    DecimalChars(v.major);
    DecimalChars(v.minor);
    DecimalChars(v.patch);
    JoinLacks(parts, '.', '-');
    JoinLacks(parts, '.', '+');
    JoinOfVersionChars(parts);
    assert Core(v)[0] == parts[0][0];
  }

  lemma {:induction false} CoreReads(v: Version)
    requires v.major <= MAX_INT && v.minor <= MAX_INT && v.patch <= MAX_INT
    ensures var parts := Split(Core(v), '.');
            && |parts| == 3 && (forall p :: p in parts ==> Natural(p)) && Numbers(parts) == [v.major, v.minor, v.patch]
  {
    var parts := [Decimal(v.major), Decimal(v.minor), Decimal(v.patch)];
    DecimalChars(v.major);
    DecimalChars(v.minor);
    DecimalChars(v.patch);
    SplitOfJoin(parts, '.');
    DecimalReads(v.major);
    DecimalReads(v.minor);
    DecimalReads(v.patch);
  }

  lemma {:induction false} IdentTextChars(x: Ident)
    requires WellFormedIdent(x)
    ensures var t := IdentText(x); t != "" && AllVersionChars(t) && '.' !in t && '+' !in t
  {
    if x.Number? {
      DecimalReads(x.n);
    }
  }

  lemma {:induction false} PreReads(v: Version)
    requires WellFormed(v) && v.pre != []
    ensures Split(Pre(v), '.') == Texts(v.pre) && Pre(v) != "" && AllVersionChars(Pre(v)) && '+' !in Pre(v)
  {
    var ts := Texts(v.pre);
    forall t | t in ts
      ensures t != "" && AllVersionChars(t) && '.' !in t && '+' !in t
    {
      var i :| 0 <= i < |ts| && ts[i] == t;
      assert v.pre[i] in v.pre;
      IdentTextChars(v.pre[i]);
    }
    SplitOfJoin(ts, '.');
    JoinLacks(ts, '.', '+');
    JoinOfVersionChars(ts);
    assert ts[0] in ts;
  }

  /** What reading a version should give. */
  function Meant(v: Version): Parsed {
    Parsed([v.major, v.minor, v.patch], if v.pre == [] then "" else Pre(v))
  }

  lemma {:induction false} UnbuiltReads(v: Version)
    requires WellFormed(v) && v.major <= MAX_INT && v.minor <= MAX_INT && v.patch <= MAX_INT
    ensures ParseUnbuilt(Written(v)) == Ok(Meant(v))
  {
    var tail := if v.pre == [] then "" else "-" + Pre(v);
    CoreChars(v);
    BeforeAndAfter(Core(v), '-', tail);
    if v.pre != [] { assert tail[1..] == Pre(v); }
    CoreReads(v);
  }

  lemma {:induction false} WrittenChars(v: Version)
    requires WellFormed(v)
    ensures Written(v) != "" && IsDigit(Written(v)[0]) && AllVersionChars(Written(v)) && '+' !in Written(v)
  {
    CoreChars(v);
    if v.pre != [] { PreReads(v); }
    assert Written(v)[0] == Core(v)[0];
  }

  /**
   Reading a version gives its numbers and pre-release, whatever its build metadata and with or without a
   leading v.
   */
  lemma {:induction false} ParseOfText(v: Version, build: string, prefix: string)
    requires WellFormed(v) && v.major <= MAX_INT && v.minor <= MAX_INT && v.patch <= MAX_INT
    requires IsBuild(build) && (prefix == "" || prefix == "v")
    ensures Parse(prefix + Written(v) + build) == Ok(Meant(v))
  {
    var bare := Written(v) + build;
    WrittenChars(v);
    assert bare[0] == Written(v)[0];
    assert prefix + Written(v) + build == prefix + bare;
    ParseStripped(prefix, bare);
    BeforeAndAfter(Written(v), '+', build);
    UnbuiltReads(v);
  }

  lemma {:induction false} ParseStripped(prefix: string, bare: string)
    requires AllVersionChars(bare) && bare != "" && IsDigit(bare[0]) && (prefix == "" || prefix == "v")
    ensures Parse(prefix + bare) == ParseUnbuilt(Before(bare, '+'))
  {
    Stripped(prefix, bare);
  }

  // ----- Compare is precedence -----

  lemma {:induction false} IdsOrderIsPrecedence(a: seq<Ident>, b: seq<Ident>, i: nat)
    requires i <= |a| && i <= |b|
    requires forall x :: x in a || x in b ==> WellFormedIdent(x) && Ordinary(x)
    ensures IdsOrder(Texts(a), Texts(b), i) == ListPrecedence(a[i..], b[i..])
    decreases |a| - i
  {
    if i < |a| && i < |b| {
      var x, y := a[i], b[i];
      assert x in a && y in b;
      IdentTextsDiffer(x, y);
      IdentsAreOrdered(x, y, x);
      if x == y {
        IdsOrderIsPrecedence(a, b, i + 1);
        assert a[i..][1..] == a[i + 1..] && b[i..][1..] == b[i + 1..];
      } else {
        IdOrderIsPrecedence(x, y);
      }
    }
  }

  ghost predicate Readable(v: Version) {
    && WellFormed(v) && (forall x :: x in v.pre ==> Ordinary(x))
    && v.major <= MAX_INT && v.minor <= MAX_INT && v.patch <= MAX_INT
  }

  lemma {:induction false} PrereleaseOrderIsPrecedence(a: Version, b: Version)
    requires Readable(a) && Readable(b) && a.pre != [] && b.pre != []
    ensures PrereleaseOrder(Pre(a), Pre(b)) == ListPrecedence(a.pre, b.pre)
  {
    PreReads(a);
    PreReads(b);
    IdsOrderIsPrecedence(a.pre, b.pre, 0);
    assert a.pre[0..] == a.pre && b.pre[0..] == b.pre;
    ListsAreOrdered(a.pre, b.pre, a.pre);
    if Pre(a) == Pre(b) {
      IdsOfSame(Texts(a.pre), 0);
    }
  }

  lemma {:induction false} IdsOfSame(a: seq<string>, i: nat)
    requires i <= |a|
    ensures IdsOrder(a, a, i) == 0
    decreases |a| - i
  {
    if i < |a| { IdsOfSame(a, i + 1); }
  }

  /**
   On versions the code can read, Compare is precedence as Semantic Versioning defines it, whatever build
   metadata and leading v are added; so it is a total order, zero only for versions equal but for these.
   */
  lemma {:induction false} CompareIsPrecedence(a: Version, b: Version, aBuild: string, bBuild: string,
      aPrefix: string, bPrefix: string)
    requires Readable(a) && Readable(b) && IsBuild(aBuild) && IsBuild(bBuild)
    requires aPrefix in ["", "v"] && bPrefix in ["", "v"]
    ensures Compared(aPrefix + Written(a) + aBuild, bPrefix + Written(b) + bBuild) == Ok(Precedence(a, b))
  {
    ParseOfText(a, aBuild, aPrefix);
    ParseOfText(b, bBuild, bPrefix);
    MeantOrder(a, b);
  }

  lemma {:induction false} MeantOrder(a: Version, b: Version)
    requires Readable(a) && Readable(b)
    ensures ParsedOrder(Meant(a), Meant(b)) == Precedence(a, b)
  {
    if a.pre != [] { PreReads(a); }
    if b.pre != [] { PreReads(b); }
    if a.pre != [] && b.pre != [] { PrereleaseOrderIsPrecedence(a, b); }
    CoresOrder(a, b);
  }

  lemma {:induction false} CoresOrder(a: Version, b: Version)
    ensures NumbersOrder([a.major, a.minor, a.patch], [b.major, b.minor, b.patch], 0) ==
            if a.major != b.major then NatPrecedence(a.major, b.major)
            else if a.minor != b.minor then NatPrecedence(a.minor, b.minor)
            else NatPrecedence(a.patch, b.patch)
  {
    var an, bn := [a.major, a.minor, a.patch], [b.major, b.minor, b.patch];
    assert NumbersOrder(an, bn, 3) == 0;
    assert NumbersOrder(an, bn, 1) ==
        if an[1] < bn[1] then -1 else if an[1] > bn[1] then 1 else NumbersOrder(an, bn, 2);
  }

  // ----- Versions that are compared wrongly -----

  /** The numbers fit an int, so that the version can be read at all. */
  predicate CoreFits(v: Version) {
    v.major <= MAX_INT && v.minor <= MAX_INT && v.patch <= MAX_INT
  }

  ghost predicate ComparedRight(w: Version, v: Version) {
    Compared(Written(w), Written(v)) == Ok(Precedence(w, v))
  }

  /** Compare orders a version right against every readable one exactly if it is readable itself. */
  lemma {:induction false} ComparedRightExactly(v: Version)
    requires WellFormed(v) && CoreFits(v)
    ensures Readable(v) <==> forall w {:trigger ComparedRight(w, v)} :: Readable(w) ==> ComparedRight(w, v)
  {
    if Readable(v) {
      forall w | Readable(w)
        ensures ComparedRight(w, v)
      {
        WrittenCompare(w, v);
        MeantOrder(w, v);
      }
    } else {
      var w := ComparedWrong(v);
      assert !ComparedRight(w, v);
    }
  }

  lemma {:induction false} ComparedWrong(v: Version) returns (w: Version)
    requires WellFormed(v) && CoreFits(v) && !Readable(v)
    ensures Readable(w) && !ComparedRight(w, v)
  {
    var i := FirstFailing((x: Ident) => Ordinary(x), v.pre, 0);
    OrderedRightExactly(v.pre[i]);
    var y :| WellFormedIdent(y) && Ordinary(y) && !OrderedRight(y, v.pre[i]);
    w := v.(pre := v.pre[..i] + [y]);
    assert Readable(w) && y != v.pre[i];
    forall k | 0 <= k < i
      ensures w.pre[k] == v.pre[k]
    {
    }
    ComparedAt(w, v, i);
  }

  lemma {:induction false} WrittenCompare(w: Version, v: Version)
    requires WellFormed(w) && WellFormed(v) && CoreFits(w) && CoreFits(v)
    ensures Compared(Written(w), Written(v)) == Ok(ParsedOrder(Meant(w), Meant(v)))
  {
    assert "" + Written(w) + "" == Written(w) && "" + Written(v) + "" == Written(v);
    ParseOfText(w, "", "");
    ParseOfText(v, "", "");
  }

  lemma {:induction false} FirstFailing<T>(ok: T -> bool, xs: seq<T>, from: nat) returns (i: nat)
    requires exists k :: from <= k < |xs| && !ok(xs[k])
    ensures from <= i < |xs| && !ok(xs[i]) && forall k :: from <= k < i ==> ok(xs[k])
    decreases |xs| - from
  {
    i := from;
    if ok(xs[from]) {
      i := FirstFailing(ok, xs, from + 1);
    }
  }

  /** Versions that agree up to their i-th identifiers, and differ there. */
  ghost predicate DifferAt(w: Version, v: Version, i: nat) {
    && WellFormed(v) && WellFormed(w) && CoreFits(v) && w == v.(pre := w.pre)
    && i < |w.pre| && i < |v.pre| && w.pre[i] != v.pre[i]
    && forall k :: 0 <= k < i ==> w.pre[k] == v.pre[k]
  }

  /** Those identifiers decide, each way. */
  lemma {:induction false} ComparedAt(w: Version, v: Version, i: nat)
    requires DifferAt(w, v, i)
    ensures Compared(Written(w), Written(v)) == Ok(IdOrder(IdentText(w.pre[i]), IdentText(v.pre[i])))
    ensures Precedence(w, v) == IdentPrecedence(w.pre[i], v.pre[i])
  {
    WrittenCompare(w, v);
    CoresOrder(w, v);
    ParsedAt(w, v, i);
    PrecedenceDecidedAt(w.pre, v.pre, i);
  }

  lemma {:induction false} ParsedAt(w: Version, v: Version, i: nat)
    requires DifferAt(w, v, i)
    ensures PrereleaseOrder(Pre(w), Pre(v)) == IdOrder(IdentText(w.pre[i]), IdentText(v.pre[i]))
  {
    assert w.pre[i] in w.pre && v.pre[i] in v.pre;
    PreReads(v);
    PreReads(w);
    IdentTextsDiffer(w.pre[i], v.pre[i]);
    assert Texts(w.pre)[i] != Texts(v.pre)[i];
    DecidedAt(Texts(w.pre), Texts(v.pre), 0, i);
  }

  /** The first identifiers that differ decide: in the code, and in section 11. */
  lemma {:induction false} DecidedAt(a: seq<string>, b: seq<string>, from: nat, i: nat)
    requires from <= i < |a| && i < |b| && a[i] != b[i] && forall k :: from <= k < i ==> a[k] == b[k]
    ensures IdsOrder(a, b, from) == IdOrder(a[i], b[i])
    decreases i - from
  {
    if from < i { DecidedAt(a, b, from + 1, i); }
  }

  lemma {:induction false} PrecedenceDecidedAt(a: seq<Ident>, b: seq<Ident>, i: nat)
    requires i < |a| && i < |b| && a[i] != b[i] && forall k :: 0 <= k < i ==> a[k] == b[k]
    ensures ListPrecedence(a, b) == IdentPrecedence(a[i], b[i])
  {
    IdentsAreOrdered(a[0], b[0], a[0]);
    if i > 0 { PrecedenceDecidedAt(a[1..], b[1..], i - 1); }
  }

  /** A hyphen before digits, and a number past the largest int: precedence is one way and Compare the other. */
  lemma {:induction false} UnreadIsMisplaced()
    ensures var zero, minus := Version(1, 0, 0, [Number(0)]), Version(1, 0, 0, [Alpha("-1")]);
            Precedence(zero, minus) == -1 && Compared(Written(zero), Written(minus)) == Ok(1)
    ensures var hyphen, large := Version(1, 0, 0, [Alpha("-")]), Version(1, 0, 0, [Number(MAX_INT + 1)]);
            Precedence(hyphen, large) == 1 && Compared(Written(hyphen), Written(large)) == Ok(-1)
  {
    HyphenIsMisplaced();
    LargeIsMisplaced();
  }

  lemma {:induction false} HyphenIsMisplaced()
    ensures var zero, minus := Version(1, 0, 0, [Number(0)]), Version(1, 0, 0, [Alpha("-1")]);
            Precedence(zero, minus) == -1 && Compared(Written(zero), Written(minus)) == Ok(1)
  {
    var zero, minus := Version(1, 0, 0, [Number(0)]), Version(1, 0, 0, [Alpha("-1")]);
    assert "-1"[1..] == "1" && "1"[..0] == "" && Value("1") == 1 && Atoi("-1") == Some(-1);
    assert Decimal(0) == "0" && "0"[..0] == "" && Value("0") == 0 && Atoi("0") == Some(0);
    assert !IsDigit("-1"[0]);
    ComparedAt(zero, minus, 0);
  }

  lemma {:induction false} LargeIsMisplaced()
    ensures var hyphen, large := Version(1, 0, 0, [Alpha("-")]), Version(1, 0, 0, [Number(MAX_INT + 1)]);
            Precedence(hyphen, large) == 1 && Compared(Written(hyphen), Written(large)) == Ok(-1)
  {
    var hyphen, large := Version(1, 0, 0, [Alpha("-")]), Version(1, 0, 0, [Number(MAX_INT + 1)]);
    DecimalReads(MAX_INT + 1);
    assert !IsDigit("-"[0]) && Less("-", Decimal(MAX_INT + 1));
    ComparedAt(hyphen, large, 0);
  }

  // ----- Versions no order is kept on -----

  /** Two different identifiers are ordered one way exactly if they are not numbers of the same value. */
  lemma {:induction false} IdOrderIsOneWayExactly(a: string, b: string)
    requires a != b
    ensures IdOrder(a, b) == -IdOrder(b, a) <==> !SameNumber(a, b)
  {
    LessIsTotal(a, b);
    if Less(a, b) { LessIsOneWay(a, b); }
    if Less(b, a) { LessIsOneWay(b, a); }
  }

  predicate SameNumber(a: string, b: string) {
    Atoi(a).Some? && Atoi(a) == Atoi(b)
  }

  /** Where the identifiers first differ, they are two ways of writing one number. */
  predicate Ambiguous(a: seq<string>, b: seq<string>, i: nat)
    requires i <= |a| && i <= |b|
    decreases |a| - i
  {
    i < |a| && i < |b| && if a[i] == b[i] then Ambiguous(a, b, i + 1) else SameNumber(a[i], b[i])
  }

  lemma {:induction false} IdsOrderIsOneWayExactly(a: seq<string>, b: seq<string>, i: nat)
    requires i <= |a| && i <= |b|
    ensures IdsOrder(a, b, i) == -IdsOrder(b, a, i) <==> !Ambiguous(a, b, i)
    decreases |a| - i
  {
    if i < |a| && i < |b| {
      if a[i] == b[i] { IdsOrderIsOneWayExactly(a, b, i + 1); } else { IdOrderIsOneWayExactly(a[i], b[i]); }
    }
  }

  lemma {:induction false} NumbersOrderIsOneWay(a: seq<int>, b: seq<int>, i: nat)
    requires i <= |a| == |b|
    ensures NumbersOrder(a, b, i) == -NumbersOrder(b, a, i)
    decreases |a| - i
  {
    if i < |a| { NumbersOrderIsOneWay(a, b, i + 1); }
  }

  /** The order of two texts that can be read is reversed by exchanging them exactly if they are not ambiguous. */
  lemma {:induction false} CompareIsOneWayExactly(a: string, b: string)
    requires Parse(a).Ok? && Parse(b).Ok?
    ensures var pa, pb := Parse(a).value, Parse(b).value;
            Compared(a, b).value == -Compared(b, a).value <==>
            !(NumbersOrder(pa.num, pb.num, 0) == 0 && pa.pre != "" && pb.pre != "" && pa.pre != pb.pre
              && Ambiguous(Split(pa.pre, '.'), Split(pb.pre, '.'), 0))
  {
    var pa, pb := Parse(a).value, Parse(b).value;
    NumbersOrderIsOneWay(pa.num, pb.num, 0);
    IdsOrderIsOneWayExactly(Split(pa.pre, '.'), Split(pb.pre, '.'), 0);
  }

  /** A core with any pre-release after it, well formed or not. */
  lemma {:induction false} AnyPreReads(v: Version, pre: string)
    requires CoreFits(v) && AllVersionChars(pre) && '+' !in pre
    ensures Parse(Core(v) + "-" + pre) == Ok(Parsed([v.major, v.minor, v.patch], pre))
  {
    var text := Core(v) + ("-" + pre);
    CoreChars(v);
    assert Core(v) + "-" + pre == text;
    assert text[0] == Core(v)[0] && "" + text == text && text + "" == text;
    ParseStripped("", text);
    BeforeAndAfter(text, '+', "");
    AnyPreUnbuilt(v, pre);
  }

  lemma {:induction false} AnyPreUnbuilt(v: Version, pre: string)
    requires CoreFits(v)
    ensures ParseUnbuilt(Core(v) + ("-" + pre)) == Ok(Parsed([v.major, v.minor, v.patch], pre))
  {
    CoreChars(v);
    BeforeAndAfter(Core(v), '-', "-" + pre);
    assert ("-" + pre)[1..] == pre;
    CoreReads(v);
  }

  /** A leading zero, which section 9 forbids, makes each of two versions later than the other. */
  lemma {:induction false} LeadingZeroBreaksOrder(a: string, b: string)
    requires a == "1.0.0-01" && b == "1.0.0-1"
    ensures Compared(a, b) == Ok(1) && Compared(b, a) == Ok(1)
  {
    ReadsAs(a, "01");
    ReadsAs(b, "1");
    ZeroOneOrder();
    PreDecides([1, 0, 0], "01", "1");
    PreDecides([1, 0, 0], "1", "01");
  }

  lemma {:induction false} PreDecides(num: seq<int>, a: string, b: string)
    requires |num| == 3
    ensures ParsedOrder(Parsed(num, a), Parsed(num, b)) == PrereleaseOrder(a, b)
  {
    assert NumbersOrder(num, num, 2) == NumbersOrder(num, num, 3) == 0;
    assert NumbersOrder(num, num, 0) == NumbersOrder(num, num, 1) == 0;
  }

  lemma {:induction false} ReadsAs(text: string, pre: string)
    requires AllDigits(pre) && text == "1.0.0" + "-" + pre
    ensures Parse(text) == Ok(Parsed([1, 0, 0], pre))
  {
    CoreOfOne();
    AnyPreReads(Version(1, 0, 0, []), pre);
  }

  lemma {:induction false} ZeroOneOrder()
    ensures PrereleaseOrder("01", "1") == 1 && PrereleaseOrder("1", "01") == 1
  {
    ZeroOneIsOne();
    SplitWhole("01", '.');
    SplitWhole("1", '.');
    assert IdOrder("01", "1") == 1 && IdOrder("1", "01") == 1;
  }

  lemma {:induction false} CoreOfOne()
    ensures Core(Version(1, 0, 0, [])) == "1.0.0"
  {
    assert Decimal(1) == "1" && Decimal(0) == "0";
    var parts := ["1", "0", "0"];
    assert parts[1..] == ["0", "0"] && ["0", "0"][1..] == ["0"];
    assert Join(["0"], '.') == "0" && Join(["0", "0"], '.') == "0.0" && Join(parts, '.') == "1.0.0";
  }

  lemma {:induction false} ZeroOneIsOne()
    ensures Atoi("01") == Some(1) && Atoi("1") == Some(1)
  {
    assert "01"[..1] == "0" && "0"[..0] == "" && "1"[..0] == "";
    assert Value("0") == 0 && Value("01") == 1 && Value("1") == 1;
    assert AllDigits("01") && AllDigits("1");
  }
}
