/** Delegated tokens: internal/server/delegate.go. */
module Delegation {
  import opened Wrappers
  import opened Names
  import opened Text

  const ADMIN := "admin"

  const STORAGE := "storage:"

  const MAX_CHILD_NAME: nat := 64

  // ----- Patterns -----

  predicate Wild(pattern: string) {
    pattern != "" && pattern[|pattern| - 1] == '*'
  }

  /** The pattern without a star at its end. */
  function Base(pattern: string): string {
    if Wild(pattern) then pattern[..|pattern| - 1] else pattern
  }

  // ----- Scopes and what they grant -----

  predicate MatchesStoragePattern(pattern: string, path: string) {
    if Wild(pattern) then HasPrefix(path, Base(pattern)) else pattern == path
  }

  /** What one scope of a token grants. */
  predicate Grants(scope: string, verb: string, path: string) {
    var pattern := CutPrefix(scope, STORAGE + verb + ":");
    pattern.Some? && MatchesStoragePattern(pattern.value, path)
  }

  predicate HasStorageScope(scopes: seq<string>, verb: string, path: string) {
    ADMIN in scopes || exists s :: s in scopes && Grants(s, verb, path)
  }

  predicate HasScope(scopes: seq<string>, scope: string) {
    scope in scopes
  }

  /** The verb and the pattern of a storage scope. */
  function CutStorageScope(scope: string): Option<(string, string)> {
    match CutPrefix(scope, STORAGE)
    case None => None
    case Some(rest) =>
      match Cut(rest, ':')
      case None => None
      case Some((verb, pattern)) => Parts(verb, pattern)
  }

  function Parts(verb: string, pattern: string): Option<(string, string)> {
    if verb == "" || pattern == "" then None else Some((verb, pattern))
  }

  function StorageScope(verb: string, pattern: string): string {
    STORAGE + verb + ":" + pattern
  }

  predicate Covers(held: string, want: string) {
    held == want
    || (var h, w := CutStorageScope(held), CutStorageScope(want);
        && h.Some? && w.Some? && w.value.0 == h.value.0
        && Wild(h.value.1) && HasPrefix(Base(w.value.1), Base(h.value.1)))
  }

  predicate ScopeCovered(held: seq<string>, want: string) {
    exists h :: h in held && Covers(h, want)
  }

  /** With a star at its end a pattern is for every path that begins so, without one for that path only. */
  lemma {:induction false} PatternMeans(pattern: string, path: string)
    ensures MatchesStoragePattern(pattern + "*", path) <==> |pattern| <= |path| && path[..|pattern|] == pattern
    ensures pattern != "" && pattern[|pattern| - 1] != '*' ==>
              (MatchesStoragePattern(pattern, path) <==> path == pattern)
    ensures !MatchesStoragePattern("", "x")
  {
    assert (pattern + "*")[..|pattern + "*"| - 1] == pattern;
  }

  /** A storage scope grants its verb what its pattern is for, and admin grants everything. */
  lemma {:induction false} ScopesGrant(verb: string, pattern: string, path: string)
    ensures HasStorageScope([StorageScope(verb, pattern)], verb, path) <==> MatchesStoragePattern(pattern, path)
    ensures HasStorageScope(["admin"], verb, path)
    ensures !HasStorageScope([], verb, path)
  {
    GrantsOfStorageScope(verb, pattern, path);
    var scopes := [StorageScope(verb, pattern)];
    assert scopes[0] in scopes && scopes[0][0] == 's';
  }

  // ----- Narrowing -----

  function WithoutAdmin(scopes: seq<string>): (r: seq<string>)
    ensures forall s :: s in r <==> s in scopes && s != ADMIN
  {
    if scopes == [] then []
    else
      var n := |scopes| - 1;
      assert scopes == scopes[..n] + [scopes[n]];
      WithoutAdmin(scopes[..n]) + if scopes[n] == ADMIN then [] else [scopes[n]]
  }

  predicate MayDelegate(parent: seq<string>, want: string) {
    want != ADMIN && ScopeCovered(parent, want)
  }

  /** The child's scopes: all the parent's but admin, or what was asked for if all of it may be delegated. */
  function Narrowed(parent: seq<string>, want: seq<string>): Option<seq<string>> {
    if want == [] then Some(WithoutAdmin(parent))
    else if forall w :: w in want ==> MayDelegate(parent, w) then Some(want)
    else None
  }

  method NarrowScopes(parent: seq<string>, want: seq<string>) returns (r: Option<seq<string>>)
    ensures r == Narrowed(parent, want)
  {
    var out: seq<string> := [];
    if |want| == 0 {
      for i := 0 to |parent|
        invariant out == WithoutAdmin(parent[..i])
      {
        assert parent[..i + 1][..i] == parent[..i];
        if parent[i] != ADMIN {
          out := out + [parent[i]];
        }
      }
      assert parent[..|parent|] == parent;
      return Some(out);
    }
    for i := 0 to |want|
      invariant out == want[..i] && forall w :: w in want[..i] ==> MayDelegate(parent, w)
    {
      var w := want[i];
      assert want[..i + 1] == want[..i] + [w];
      if w == ADMIN {
        assert w in want && !MayDelegate(parent, w);
        return None;
      }
      if !ScopeCovered(parent, w) {
        assert w in want && !MayDelegate(parent, w);
        return None;
      }
      out := out + [w];
    }
    assert want[..|want|] == want;
    r := Some(out);
  }

  // ----- Narrowing never widens -----

  /** A scope grants something for a verb only if it names that verb, and a verb the code can read back. */
  lemma {:induction false} GrantReads(scope: string, verb: string, path: string)
    requires Grants(scope, verb, path) && ':' !in verb
    ensures exists pattern :: scope == StorageScope(verb, pattern) && MatchesStoragePattern(pattern, path)
                              && CutStorageScope(scope) == Parts(verb, pattern)
  {
    var prefix := STORAGE + verb + ":";
    var pattern := scope[|prefix|..];
    assert scope == prefix + pattern;
    ReadBack(verb, pattern);
    assert scope == StorageScope(verb, pattern);
  }

  lemma {:induction false} ReadBack(verb: string, pattern: string)
    requires ':' !in verb
    ensures CutStorageScope(StorageScope(verb, pattern)) == Parts(verb, pattern)
  {
    var scope := StorageScope(verb, pattern);
    var rest := verb + ":" + pattern;
    assert scope == STORAGE + rest && scope[..|STORAGE|] == STORAGE && scope[|STORAGE|..] == rest;
    CutIsFirst(verb, ':', pattern);
  }

  lemma {:induction false} StorageScopeParts(scope: string)
    ensures CutStorageScope(scope).Some? ==>
              var (verb, pattern) := CutStorageScope(scope).value;
              scope == StorageScope(verb, pattern) && ':' !in verb && verb != "" && pattern != ""
  {
    if HasPrefix(scope, STORAGE) {
      var rest := scope[|STORAGE|..];
      assert scope == STORAGE + rest;
      CutParts(rest, ':');
      match Cut(rest, ':')
      case Some((verb, pattern)) => assert STORAGE + (verb + [':'] + pattern) == StorageScope(verb, pattern);
      case None =>
    }
  }

  lemma {:induction false} GrantsOfStorageScope(verb: string, pattern: string, path: string)
    ensures Grants(StorageScope(verb, pattern), verb, path) <==> MatchesStoragePattern(pattern, path)
  {
    var prefix := STORAGE + verb + ":";
    assert StorageScope(verb, pattern)[..|prefix|] == prefix && StorageScope(verb, pattern)[|prefix|..] == pattern;
  }

  /** A scope covered by another grants nothing the other does not, for verbs without a colon. */
  lemma {:induction false} CoveredGrantsLess(held: string, want: string, verb: string, path: string)
    requires Covers(held, want) && Grants(want, verb, path) && ':' !in verb
    ensures Grants(held, verb, path)
  {
    if held != want {
      GrantReads(want, verb, path);
      StorageScopeParts(held);
      var h, w := CutStorageScope(held).value, CutStorageScope(want).value;
      GrantsOfStorageScope(verb, h.1, path);
      PrefixOfPrefix(path, Base(w.1), Base(h.1));
      assert HasPrefix(path, Base(w.1));
    }
  }

  lemma {:induction false} PrefixOfPrefix(s: string, p: string, q: string)
    ensures HasPrefix(s, p) && HasPrefix(p, q) ==> HasPrefix(s, q)
    ensures HasPrefix(s, s)
  {
    if HasPrefix(s, p) && HasPrefix(p, q) {
      assert s[..|q|] == s[..|p|][..|q|];
    }
  }

  lemma {:induction false} NarrowedIsHeld(parent: seq<string>, want: seq<string>, s: string)
    requires Narrowed(parent, want).Some? && s in Narrowed(parent, want).value
    ensures s != ADMIN && ScopeCovered(parent, s)
  {
    if want == [] {
      assert Covers(s, s);
    } else {
      assert MayDelegate(parent, s);
    }
  }

  /** The law: whatever a child may do to storage, its parent may. */
  predicate Widens(parent: seq<string>, want: seq<string>, verb: string, path: string) {
    var child := Narrowed(parent, want);
    child.Some? && HasStorageScope(child.value, verb, path) && !HasStorageScope(parent, verb, path)
  }

  lemma {:induction false} NarrowingNeverWidens(parent: seq<string>, want: seq<string>, verb: string, path: string)
    requires ':' !in verb
    ensures !Widens(parent, want, verb, path)
  {
    var narrowed := Narrowed(parent, want);
    if narrowed.Some? && HasStorageScope(narrowed.value, verb, path) {
      ChildHasNoAdmin(parent, want);
      var s :| s in narrowed.value && Grants(s, verb, path);
      NarrowedIsHeld(parent, want, s);
      var h :| h in parent && Covers(h, s);
      CoveredGrantsLess(h, s, verb, path);
    }
  }

  /** A child never holds the admin scope. */
  lemma {:induction false} ChildHasNoAdmin(parent: seq<string>, want: seq<string>)
    ensures Narrowed(parent, want).Some? ==> !HasScope(Narrowed(parent, want).value, ADMIN)
  {
    if Narrowed(parent, want).Some? && ADMIN in Narrowed(parent, want).value {
      NarrowedIsHeld(parent, want, ADMIN);
    }
  }

  /** Some token can be narrowed to one that may do more with that verb. */
  ghost predicate CanWiden(verb: string) {
    exists parent, want, path :: Widens(parent, want, verb, path)
  }

  /** The law holds of a verb for all tokens exactly if the verb has no colon after its first character. */
  lemma {:induction false} WidensExactly(verb: string)
    ensures CanWiden(verb) <==> Cut(verb, ':').Some? && Cut(verb, ':').value.0 != ""
  {
    CutParts(verb, ':');
    if CanWiden(verb) {
      var parent, want, path :| Widens(parent, want, verb, path);
      WideningNeedsColon(parent, want, verb, path);
    }
    if Cut(verb, ':').Some? && Cut(verb, ':').value.0 != "" {
      ColonWidens(Cut(verb, ':').value.0, Cut(verb, ':').value.1);
    }
  }

  lemma {:induction false} WideningNeedsColon(parent: seq<string>, want: seq<string>, verb: string, path: string)
    requires Widens(parent, want, verb, path)
    ensures ':' in verb && verb[0] != ':'
  {
    if ':' !in verb {
      NarrowingNeverWidens(parent, want, verb, path);
    } else if verb[0] == ':' {
      LeadingColonIsExact(parent, want, verb, path);
    }
  }

  /** A token for all of verb "a" can be narrowed to one for verb "a:b". */
  lemma {:induction false} ColonWidens(first: string, rest: string)
    requires first != "" && ':' !in first
    ensures CanWiden(first + [':'] + rest)
  {
    var verb := first + [':'] + rest;
    var held, want := StorageScope(first, "*"), StorageScope(verb, "*");
    ReadsAsShorter(first, rest);
    assert held in [held] && want in [want];
    assert want[0] == 's' && ADMIN[0] == 'a' && held[0] == 's';
    GrantsOfStorageScope(verb, "*", "");
    assert MayDelegate([held], want);
    assert Narrowed([held], [want]) == Some([want]);
    ShorterDoesNotGrant(first, rest);
    assert Widens([held], [want], verb, "");
  }

  lemma {:induction false} ReadsAsShorter(first: string, rest: string)
    requires first != "" && ':' !in first
    ensures Covers(StorageScope(first, "*"), StorageScope(first + [':'] + rest, "*"))
  {
    ReadBack(first, "*");
    ReadBack(first, rest + ":*");
    assert StorageScope(first + [':'] + rest, "*") == StorageScope(first, rest + ":*");
  }

  lemma {:induction false} ShorterDoesNotGrant(first: string, rest: string)
    ensures !Grants(StorageScope(first, "*"), first + [':'] + rest, "")
  {
    var held, prefix := StorageScope(first, "*"), STORAGE + (first + [':'] + rest) + ":";
    var n := |held| - 1;
    assert held[n] == '*';
    if rest == "" {
      assert |held| == |prefix| && prefix[n] == ':';
    }
  }

  lemma {:induction false} LeadingColonIsExact(parent: seq<string>, want: seq<string>, verb: string, path: string)
    requires verb != "" && verb[0] == ':'
    ensures !Widens(parent, want, verb, path)
  {
    var narrowed := Narrowed(parent, want);
    if narrowed.Some? && HasStorageScope(narrowed.value, verb, path) {
      ChildHasNoAdmin(parent, want);
      var s :| s in narrowed.value && Grants(s, verb, path);
      NarrowedIsHeld(parent, want, s);
      var h :| h in parent && Covers(h, s);
      LeadingColonIsNotRead(s, verb, path);
    }
  }

  lemma {:induction false} LeadingColonIsNotRead(s: string, verb: string, path: string)
    requires verb != "" && verb[0] == ':' && Grants(s, verb, path)
    ensures CutStorageScope(s).None?
  {
    var pattern := s[|STORAGE + verb + ":"|..];
    var more := verb[1..] + ":" + pattern;
    assert s == STORAGE + verb + ":" + pattern;
    assert s == StorageScope("", more);
    ReadBack("", more);
  }

  // ----- Exact scopes -----

  /** A child holds a scope its parent does not list. */
  ghost predicate CanAppear(scope: string) {
    exists parent, want :: Appears(parent, want, scope)
  }

  predicate Appears(parent: seq<string>, want: seq<string>, scope: string) {
    var child := Narrowed(parent, want);
    child.Some? && HasScope(child.value, scope) && !HasScope(parent, scope)
  }

  /**
   A scope checked by exact match is never gained by narrowing, unless it is a storage scope other than one
   for everything of its verb: that one is gained from the scope for everything.
   */
  lemma {:induction false} AppearsExactly(scope: string)
    ensures CanAppear(scope) <==> CutStorageScope(scope).Some? && CutStorageScope(scope).value.1 != "*"
  {
    var cut := CutStorageScope(scope);
    StorageScopeParts(scope);
    if CanAppear(scope) {
      var parent, want :| Appears(parent, want, scope);
      NarrowedIsHeld(parent, want, scope);
      var h :| h in parent && Covers(h, scope);
      StorageScopeParts(h);
      if cut.Some? && cut.value.1 == "*" {
        EverythingIsCoveredByItself(CutStorageScope(h).value.1);
      }
    }
    if cut.Some? && cut.value.1 != "*" {
      GainedFromEverything(scope, cut.value.0, cut.value.1);
    }
  }

  lemma {:induction false} EverythingIsCoveredByItself(pattern: string)
    requires Wild(pattern) && HasPrefix(Base("*"), Base(pattern))
    ensures pattern == "*"
  {
  }

  lemma {:induction false} GainedFromEverything(scope: string, verb: string, pattern: string)
    requires CutStorageScope(scope) == Some((verb, pattern)) && pattern != "*"
    ensures CanAppear(scope)
  {
    StorageScopeParts(scope);
    var held := StorageScope(verb, "*");
    ReadBack(verb, "*");
    assert Base("*") == "" && HasPrefix(Base(pattern), "");
    assert Covers(held, scope) && held in [held] && scope in [scope];
    assert scope[0] == 's' && ADMIN[0] == 'a';
    assert MayDelegate([held], scope);
    assert Narrowed([held], [scope]) == Some([scope]);
    assert Appears([held], [scope], scope);
  }

  // ----- Covering is containment -----

  /** For readable storage scopes of a verb, one covers the other exactly if it grants every path the other does. */
  lemma {:induction false} CoversExactly(verb: string, held: string, want: string)
    requires verb != "" && ':' !in verb && held != "" && want != ""
    ensures Covers(StorageScope(verb, held), StorageScope(verb, want)) <==>
            forall path :: Grants(StorageScope(verb, want), verb, path) ==> Grants(StorageScope(verb, held), verb, path)
  {
    var h, w := StorageScope(verb, held), StorageScope(verb, want);
    ReadBack(verb, held);
    ReadBack(verb, want);
    if Covers(h, w) {
      forall path | Grants(w, verb, path)
        ensures Grants(h, verb, path)
      {
        CoveredGrantsLess(h, w, verb, path);
      }
    } else {
      var path := UncoveredPath(held, want);
      GrantsOfStorageScope(verb, want, path);
      GrantsOfStorageScope(verb, held, path);
      assert Grants(w, verb, path) && !Grants(h, verb, path);
    }
  }

  /** A path the one pattern matches and the other does not. */
  lemma {:induction false} UncoveredPath(held: string, want: string) returns (path: string)
    requires held != want && !(Wild(held) && HasPrefix(Base(want), Base(held)))
    ensures MatchesStoragePattern(want, path) && !MatchesStoragePattern(held, path)
  {
    path := Base(want);
    PrefixOfPrefix(path, path, path);
    if MatchesStoragePattern(held, path) {
      path := path + "?";
    }
  }

  // ----- Ids of delegated workers -----

  function DelegatedWorkerId(parent: string, child: string): string {
    parent + [SEPARATOR] + child
  }

  function DelegationParent(id: string): Option<(string, string)> {
    match Cut(id, SEPARATOR)
    case Some((parent, child)) => if parent == "" || child == "" then None else Some((parent, child))
    case None => None
  }

  /** Parent and child can be read back from a delegated id, and only from one. */
  lemma {:induction false} ParentReadsBack(id: string, parent: string, child: string)
    ensures DelegationParent(id) == Some((parent, child)) <==>
            id == DelegatedWorkerId(parent, child) && SEPARATOR !in parent && parent != "" && child != ""
  {
    CutParts(id, SEPARATOR);
    if SEPARATOR !in parent {
      CutIsFirst(parent, SEPARATOR, child);
    }
  }

  /** Connecting refuses every delegated id. */
  lemma {:induction false} ConnectRefusesDelegatedIds(parent: string, child: string)
    ensures !Named(IdOf(DelegatedWorkerId(parent, child)))
  {
    var id := DelegatedWorkerId(parent, child);
    assert id[|parent|] == SEPARATOR && id[|parent|] in id;
    NamedExactly(id);
  }

  // ----- Minting -----

  datatype Claims = Claims(workerId: string, scopes: seq<string>, delegatedBy: string, expiresAt: Option<int>) {

    predicate Delegated() {
      delegatedBy != ""
    }
  }

  datatype Request = Request(child: string, scopes: seq<string>, ttl: int)

  datatype MintError = CannotDelegate | NoWorkerId | BadChildName | ScopeNotHeld | TtlTooLong | ParentExpired

  /** The lifetime a request asks for; none given means the maximum. */
  function AskedTtl(req: Request, maxTtl: int): int {
    if req.ttl <= 0 then maxTtl else req.ttl
  }

  function LeftOf(parent: Claims, now: int, ttl: int): int {
    if parent.expiresAt.Some? && parent.expiresAt.value - now < ttl then parent.expiresAt.value - now else ttl
  }

  /** The name of the child: the one asked for, or a random one. */
  function ChildName(req: Request, random: string): string {
    if req.child == "" then random else req.child
  }

  predicate MayMint(parent: Claims, req: Request, maxTtl: int, random: string, now: int) {
    && !parent.Delegated() && parent.workerId != ""
    && |ChildName(req, random)| <= MAX_CHILD_NAME && WellFormedName(ChildName(req, random))
    && Narrowed(parent.scopes, req.scopes).Some?
    && AskedTtl(req, maxTtl) <= maxTtl
    && LeftOf(parent, now, AskedTtl(req, maxTtl)) > 0
  }

  /**
   Mints a token for a child of the caller. `now` is the clock when the parent's remaining lifetime is
   computed and `issued` the clock when the token is stamped.
   */
  method MintDelegatedToken(parent: Claims, req: Request, maxTtl: int, random: string, now: int, issued: int)
    returns (r: Result<Claims, MintError>)
    ensures r.Ok? <==> MayMint(parent, req, maxTtl, random, now)
    ensures r.Ok? ==>
              && r.value.Delegated() && r.value.delegatedBy == parent.workerId
              && r.value.workerId == DelegatedWorkerId(parent.workerId, ChildName(req, random))
              && Some(r.value.scopes) == Narrowed(parent.scopes, req.scopes)
              && r.value.expiresAt == Some(issued + LeftOf(parent, now, AskedTtl(req, maxTtl)))
    ensures r == Err(CannotDelegate) <==> parent.delegatedBy != ""
    ensures r == Err(NoWorkerId) <==> parent.delegatedBy == "" && parent.workerId == ""
    ensures r == Err(BadChildName) <==>
              parent.delegatedBy == "" && parent.workerId != ""
              && var name := if req.child == "" then random else req.child; (|name| > 64 || !WellFormedName(name))
    ensures r == Err(TtlTooLong) ==> req.ttl > maxTtl
    ensures r == Err(ParentExpired) ==>
              maxTtl <= 0 || (parent.expiresAt.Some? && parent.expiresAt.value <= now)
    ensures r.Ok? && req.scopes != [] ==> r.value.scopes == req.scopes
    ensures r.Ok? ==>
              && r.value.workerId == parent.workerId + "~" + (if req.child == "" then random else req.child)
              && (var asked := if req.ttl > 0 then req.ttl else maxTtl;
                  && asked <= maxTtl
                  && r.value.expiresAt ==
                     Some(issued + (if parent.expiresAt.Some? && parent.expiresAt.value - now < asked
                                    then parent.expiresAt.value - now else asked)))
  {
    if parent.Delegated() {
      return Err(CannotDelegate);
    }
    if parent.workerId == "" {
      return Err(NoWorkerId);
    }
    var child := req.child;
    if child == "" {
      child := random;
    }
    if |child| > MAX_CHILD_NAME || !WellFormedName(child) {
      return Err(BadChildName);
    }
    var childId := DelegatedWorkerId(parent.workerId, child);
    var scopes := NarrowScopes(parent.scopes, req.scopes);
    if scopes.None? {
      return Err(ScopeNotHeld);
    }
    var ttl := req.ttl;
    if ttl <= 0 {
      ttl := maxTtl;
    }
    if ttl > maxTtl {
      return Err(TtlTooLong);
    }
    if parent.expiresAt.Some? {
      var left := parent.expiresAt.value - now;
      if left < ttl {
        ttl := left;
      }
    }
    if ttl <= 0 {
      return Err(ParentExpired);
    }
    r := Ok(Claims(childId, scopes.value, parent.workerId, Some(issued + ttl)));
  }

  /** The expiry a minted token gets. */
  function Expiry(parent: Claims, req: Request, maxTtl: int, now: int, issued: int): int {
    issued + LeftOf(parent, now, AskedTtl(req, maxTtl))
  }

  /**
   A child's token expires no later than the maximum lifetime from its issue; no later than its parent's
   exactly if the clock had not moved on between the two readings or what was asked for ends in time.
   */
  lemma {:induction false} ExpiresInTime(parent: Claims, req: Request, maxTtl: int, random: string, now: int,
      issued: int)
    requires MayMint(parent, req, maxTtl, random, now)
    ensures issued < Expiry(parent, req, maxTtl, now, issued) <= issued + maxTtl
    ensures parent.expiresAt.Some? ==>
              (Expiry(parent, req, maxTtl, now, issued) <= parent.expiresAt.value <==>
               issued <= now || issued + AskedTtl(req, maxTtl) <= parent.expiresAt.value)
  {
  }

  const SECOND := 1_000_000_000

  /** Signed claims carry whole seconds only. */
  function InSeconds(t: int): int {
    t - t % SECOND
  }

  /**
   So, as signed, a child's token expires no later than its parent's exactly if less than a second passed between
   the readings or what was asked for ends less than a second late.
   */
  lemma {:induction false} SignedExpiresInTime(parent: Claims, req: Request, maxTtl: int, random: string, now: int,
      issued: int)
    requires MayMint(parent, req, maxTtl, random, now)
    requires parent.expiresAt.Some? && parent.expiresAt.value == InSeconds(parent.expiresAt.value)
    ensures InSeconds(Expiry(parent, req, maxTtl, now, issued)) <= parent.expiresAt.value <==>
            issued - now < SECOND || issued + AskedTtl(req, maxTtl) - parent.expiresAt.value < SECOND
  {
    WholeSeconds(Expiry(parent, req, maxTtl, now, issued), parent.expiresAt.value);
  }

  lemma {:induction false} WholeSeconds(t: int, limit: int)
    requires limit == InSeconds(limit)
    ensures InSeconds(t) <= limit <==> t < limit + SECOND
  {
    var a, b := t / SECOND, limit / SECOND;
    assert t == a * SECOND + t % SECOND && limit == b * SECOND;
    if a <= b {
      assert a * SECOND <= b * SECOND;
    } else {
      assert a * SECOND >= (b + 1) * SECOND;
    }
  }

  /** Two clock readings a second apart: a child's token that outlives its parent's, as signed too. */
  lemma {:induction false} CanOutliveParent()
    ensures var parent, req := Claims("a", [], "", Some(10 * SECOND)), Request("b", [], 0);
            var now, issued, maxTtl := 9 * SECOND, 10 * SECOND, 300 * SECOND;
            && MayMint(parent, req, maxTtl, "", now)
            && InSeconds(Expiry(parent, req, maxTtl, now, issued)) > parent.expiresAt.value
  {
    assert WellFormedName("b");
  }
}
