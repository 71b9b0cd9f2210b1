/** The permission language of src/auth/rbac/service.py: `*`, `module`, `module:`, `module:*` and
    `module:action`, over arbitrary strings. */
module Permissions {
  import opened Wrappers
  import opened Text

  /** `_split_permission`: an empty action counts as absent. */
  function SplitPermission(perm: string): (string, Option<string>) {
    if ':' in perm then
      var parts := Split(perm, ':', 1);
      assert Split(perm[IndexOf(perm, ':') + 1..], ':', 0) == [perm[IndexOf(perm, ':') + 1..]];
      (parts[0], if parts[1] != "" then Some(parts[1]) else None)
    else (perm, None)
  }

  /** `_match_permission`. */
  predicate Match(required: string, held: string, wildcards: bool) {
    if !wildcards then required == held
    else if required == "*" then held == "*"
    else if held == "*" then true
    else
      var (reqModule, reqAction) := SplitPermission(required);
      var (heldModule, heldAction) := SplitPermission(held);
      if reqModule != heldModule then false
      else if reqAction.None? then false
      else if heldAction.None? then true
      else if reqAction.value == "*" then true
      else heldAction.value == reqAction.value || heldAction.value == "*"
  }

  /** `_has_permission`. */
  predicate Has(required: string, held: set<string>, wildcards: bool) {
    exists p | p in held :: Match(required, p, wildcards)
  }

  /** `check_permissions` on the permissions the repository returned; None for `ValueError`. */
  function CheckPermissions(held: set<string>, required: seq<string>, mode: string, wildcards: bool): Option<bool> {
    if mode == "all" then Some(forall r | r in required :: Has(r, held, wildcards))
    else if mode == "any" then Some(exists r | r in required :: Has(r, held, wildcards))
    else None
  }

  /** `check_roles`. */
  function CheckRoles(held: set<string>, required: seq<string>, mode: string): Option<bool> {
    if mode == "all" then Some(forall r | r in required :: r in held)
    else if mode == "any" then Some(exists r | r in required :: r in held)
    else None
  }

  /** With wildcards off a requirement is met by itself alone. */
  lemma WithoutWildcards(required: string, held: set<string>)
    ensures Has(required, held, false) <==> required in held
  {
  }

  // ---- Splitting ------------------------------------------------------------------------

  function Join(m: string, a: string): string {
    m + [':'] + a
  }

  lemma SplitJoin(m: string, a: string)
    requires ':' !in m
    ensures SplitPermission(Join(m, a)) == (m, if a == "" then None else Some(a))
  {
    SplitHead(m, ':', a, 1);
    assert Join(m, a)[|m|] == ':';
    assert Split(a, ':', 0) == [a];
  }

  /** Every string is a bare module or a module, a colon and an action; the split tells which. */
  lemma SplitInverts(p: string)
    ensures var (m, a) := SplitPermission(p);
            && ':' !in m
            && (a.None? ==> p == m || p == Join(m, ""))
            && (a.Some? ==> a.value != "" && p == Join(m, a.value))
  {
  }

  lemma SplitBare(m: string)
    requires ':' !in m
    ensures SplitPermission(m) == (m, None)
  {
  }

  // ---- What a permission grants ---------------------------------------------------------

  /** A concrete action names one action. */
  predicate Plain(m: string, a: string) {
    ':' !in m && a != "" && a != "*"
  }

  /** The five ways to be granted `m:a`. */
  function Spellings(m: string, a: string): set<string> {
    {"*", m, Join(m, ""), Join(m, "*"), Join(m, a)}
  }

  /** The concrete `module:action` strings that one held permission grants. */
  ghost function Grants(held: string): iset<string> {
    iset m, a | Plain(m, a) && held in Spellings(m, a) :: Join(m, a)
  }

  lemma SpellingsBySplit(m: string, a: string, held: string)
    requires Plain(m, a)
    ensures held in Spellings(m, a) <==>
              held == "*" || (var (n, b) := SplitPermission(held); n == m && (b.None? || b == Some("*") || b == Some(a)))
  {
    SplitInverts(held);
    SplitBare(m);
    SplitJoin(m, "");
    SplitJoin(m, "*");
    SplitJoin(m, a);
  }

  lemma JoinIsNotStar(m: string, a: string)
    requires a != ""
    ensures Join(m, a) != "*"
  {
  }

  lemma ConcreteMatch(m: string, a: string, held: string)
    requires Plain(m, a)
    ensures Match(Join(m, a), held, true) <==> held in Spellings(m, a)
  {
    SplitJoin(m, a);
    JoinIsNotStar(m, a);
    SpellingsBySplit(m, a, held);
  }

  lemma ModuleWildcardMatch(m: string, held: string)
    requires ':' !in m
    ensures Match(Join(m, "*"), held, true) <==> exists a :: Plain(m, a) && held in Spellings(m, a)
  {
    SplitJoin(m, "*");
    JoinIsNotStar(m, "*");
    if Match(Join(m, "*"), held, true) {
      var action := SplitPermission(held).1;
      var a := if held != "*" && action.Some? && action.value != "*" then action.value else "x";
      SplitInverts(held);
      SpellingsBySplit(m, a, held);
      assert Plain(m, a) && held in Spellings(m, a);
    }
    if a :| Plain(m, a) && held in Spellings(m, a) {
      SpellingsBySplit(m, a, held);
    }
  }

  lemma JoinInjective(m: string, a: string, n: string, b: string)
    requires ':' !in m && ':' !in n && Join(m, a) == Join(n, b)
    ensures m == n && a == b
  {
    SplitJoin(m, a);
    SplitJoin(n, b);
  }

  /** With wildcards on, a concrete requirement asks for membership in what is granted, `m:*`
      asks for some granted action of `m`, and a requirement without an action, `*` included,
      is met by `*` alone. */
  lemma MatchMeansGrants(required: string, held: string)
    ensures var (m, action) := SplitPermission(required);
            Match(required, held, true) <==>
              if action.None? then held == "*"
              else if action.value == "*" then exists a :: Plain(m, a) && Join(m, a) in Grants(held)
              else required in Grants(held)
  {
    var (m, action) := SplitPermission(required);
    SplitInverts(required);
    if action.Some? && action.value == "*" {
      ModuleWildcardMatch(m, held);
      forall a | Plain(m, a) ensures Join(m, a) in Grants(held) <==> held in Spellings(m, a) {
        GrantsMember(m, a, held);
      }
    } else if action.Some? {
      ConcreteMatch(m, action.value, held);
      GrantsMember(m, action.value, held);
    }
  }

  lemma GrantsMember(m: string, a: string, held: string)
    requires Plain(m, a)
    ensures Join(m, a) in Grants(held) <==> held in Spellings(m, a)
  {
    if Join(m, a) in Grants(held) {
      var n, b :| Plain(n, b) && held in Spellings(n, b) && Join(n, b) == Join(m, a);
      JoinInjective(m, a, n, b);
    }
  }

  // ---- Completeness ---------------------------------------------------------------------

  function Repeat(n: nat): (s: string)
    ensures |s| == n && ':' !in s
  {
    if n == 0 then "" else Repeat(n - 1) + "x"
  }

  /** Some length exceeds every permission of a finite set. */
  lemma LengthBound(held: set<string>) returns (n: nat)
    ensures n >= 2 && forall p | p in held :: |p| < n
  {
    n := 2;
    if held != {} {
      var p :| p in held;
      var k := LengthBound(held - {p});
      n := if |p| < k then k else |p| + 1;
      forall q | q in held ensures |q| < n { if q != p { assert q in held - {p}; } }
    }
  }

  /** `*` stands for everything: a finite set of permissions satisfies it exactly when it
      satisfies every concrete requirement. */
  lemma StarIsComplete(held: set<string>)
    ensures Has("*", held, true) <==> forall m, a | Plain(m, a) :: Has(Join(m, a), held, true)
  {
    if Has("*", held, true) {
      forall m, a | Plain(m, a) ensures Has(Join(m, a), held, true) {
        ConcreteMatch(m, a, "*");
      }
    } else {
      var n := LengthBound(held);
      var m := Repeat(n);
      assert Plain(m, "a");
      forall p | p in held ensures !Match(Join(m, "a"), p, true) {
        ConcreteMatch(m, "a", p);
        assert p != "*" by { assert Match("*", "*", true); }
      }
      assert !Has(Join(m, "a"), held, true);
    }
  }

  /** A finite set satisfies every action of a module exactly when it holds one of the four
      permissions for the whole module. The requirement `m:*` does not ask for this. */
  lemma ModuleIsComplete(m: string, held: set<string>)
    requires ':' !in m
    ensures (forall a | Plain(m, a) :: Has(Join(m, a), held, true))
       <==> exists p :: p in held && p in {"*", m, Join(m, ""), Join(m, "*")}
  {
    if p :| p in held && p in {"*", m, Join(m, ""), Join(m, "*")} {
      forall a | Plain(m, a) ensures Has(Join(m, a), held, true) {
        ConcreteMatch(m, a, p);
      }
    } else {
      var n := LengthBound(held);
      var a := Repeat(n);
      assert Plain(m, a);
      forall p | p in held ensures !Match(Join(m, a), p, true) {
        ConcreteMatch(m, a, p);
      }
      assert !Has(Join(m, a), held, true);
    }
  }

  // ---- Composition ----------------------------------------------------------------------

  ghost predicate Composes(middle: string) {
    forall r, h :: Match(r, middle, true) && Match(middle, h, true) ==> Match(r, h, true)
  }

  /** Matching composes through every permission but a module wildcard. */
  lemma MatchComposes(middle: string)
    ensures Composes(middle) <==> SplitPermission(middle).1 != Some("*")
  {
    var (m, action) := SplitPermission(middle);
    SplitInverts(middle);
    if action == Some("*") {
      var r, h := Join(m, "a"), Join(m, "b");
      SplitJoin(m, "a");
      SplitJoin(m, "b");
      assert |r| > 1 && |h| > 1 && |middle| > 1;
      assert Match(r, middle, true) && Match(middle, h, true) && !Match(r, h, true);
    }
  }

  /** Turning wildcards on keeps every exact match of a requirement exactly when the
      requirement is `*` or names an action. */
  lemma WildcardsKeepExactMatches(required: string)
    ensures (forall held | Match(required, held, false) :: Match(required, held, true))
       <==> required == "*" || SplitPermission(required).1.Some?
  {
    assert Match(required, required, false);
  }
}
