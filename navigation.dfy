/**
 * The navigation menu: the registry of modules (one shared registry, keyed
 * by slug, listed in the order slugs were first registered) and the
 * context processor that shows a signed-in user the modules they may open.
 */
module Navigation {
  import opened Wrappers
  import opened Rows
  import opened Auth

  /** A menu entry; `kind` is "system" or "business", the latter by default. */
  datatype NavModule = NavModule(
    slug: string,
    menuLabel: string,
    icon: string,
    urlName: string,
    permission: Option<string>,
    kind: string)

  /** The modules of `ms` with the given kind, in order. */
  function OfKind(ms: seq<NavModule>, kind: string): (r: seq<NavModule>)
    ensures forall m :: m in r <==> m in ms && m.kind == kind
    ensures SubsequenceOf(r, ms)
  {
    if ms == [] then []
    else
      var rest := OfKind(ms[1..], kind);
      assert forall m :: m in ms[1..] ==> m in ms;
      if ms[0].kind == kind then
        assert ([ms[0]] + rest)[1..] == rest;
        [ms[0]] + rest
      else
        SubsequenceSkip(rest, ms);
        rest
  }

  /**
   * The system and business lists never share a module, and a module of
   * any other kind is in neither.
   */
  lemma KindListsPartition(ms: seq<NavModule>)
    ensures forall m :: m in OfKind(ms, "system") ==> m !in OfKind(ms, "business")
    ensures forall m :: m in ms && m.kind != "system" && m.kind != "business" ==>
                          m !in OfKind(ms, "system") && m !in OfKind(ms, "business")
    ensures forall m :: m in ms ==> (m in OfKind(ms, "system") || m in OfKind(ms, "business")) ==
                                    (m.kind in {"system", "business"})
  {
  }

  /** The registry's modules in the order of their slugs. */
  function InOrder(slugs: seq<string>, modules: map<string, NavModule>): (r: seq<NavModule>)
    requires forall s :: s in slugs ==> s in modules
    ensures |r| == |slugs|
    ensures forall k :: 0 <= k < |slugs| ==> r[k] == modules[slugs[k]]
  {
    if slugs == [] then [] else [modules[slugs[0]]] + InOrder(slugs[1..], modules)
  }

  predicate Distinct(slugs: seq<string>)
  {
    forall i, j :: 0 <= i < j < |slugs| ==> slugs[i] != slugs[j]
  }

  /** `NavigationRegistry._modules`: a dict, so its slugs keep the order they were first inserted in. */
  class NavigationRegistry {
    var slugs: seq<string>
    var modules: map<string, NavModule>

    predicate Valid()
      reads this
    {
      Distinct(slugs) && (forall s :: s in slugs ==> s in modules) && (forall s :: s in modules ==> s in slugs)
    }

    constructor ()
      ensures Valid() && slugs == [] && modules == map[]
    {
      slugs := [];
      modules := map[];
    }

    /**
     * `register(module)`: the module is stored under its slug; a new slug
     * goes last, and a slug already there keeps its place and gets the new
     * module.
     */
    method Register(m: NavModule)
      requires Valid()
      modifies this
      ensures Valid()
      ensures modules == old(modules)[m.slug := m]
      ensures slugs == if m.slug in old(modules) then old(slugs) else old(slugs) + [m.slug]
    {
      if m.slug !in modules {
        slugs := slugs + [m.slug];
      }
      modules := modules[m.slug := m];
    }

    /** `get_modules()` */
    function GetModules(): (r: seq<NavModule>)
      requires Valid()
      reads this
      ensures |r| == |slugs|
      ensures forall m :: m in r <==> m in modules.Values
    {
      var r := InOrder(slugs, modules);
      assert forall m :: m in modules.Values ==> m in r by {
        forall m | m in modules.Values ensures m in r {
          var s :| s in modules && modules[s] == m;
          var k :| 0 <= k < |slugs| && slugs[k] == s;
          assert r[k] == m;
        }
      }
      r
    }

    /** `get_system_modules()` */
    function GetSystemModules(): seq<NavModule>
      requires Valid()
      reads this
    {
      OfKind(GetModules(), "system")
    }

    /** `get_business_modules()` */
    function GetBusinessModules(): seq<NavModule>
      requires Valid()
      reads this
    {
      OfKind(GetModules(), "business")
    }
  }

  /** Listing an extension of the slugs over an updated map: the old places show the old modules, except the updated one. */
  lemma InOrderUpdated(slugs: seq<string>, slugs': seq<string>, modules: map<string, NavModule>, m: NavModule)
    requires slugs <= slugs'
    requires forall s :: s in slugs' ==> s in modules || s == m.slug
    requires forall s :: s in slugs ==> s in modules
    ensures var after := InOrder(slugs', modules[m.slug := m]);
            forall k :: 0 <= k < |slugs| ==> after[k] == if slugs[k] == m.slug then m else InOrder(slugs, modules)[k]
  {
    var after := InOrder(slugs', modules[m.slug := m]);
    var before := InOrder(slugs, modules);
    forall k | 0 <= k < |slugs|
      ensures after[k] == if slugs[k] == m.slug then m else before[k]
    {
      assert slugs'[k] == slugs[k];
    }
  }

  /**
   * After registering a module, it is the one listed under its slug and the
   * modules under other slugs keep their places; a slug registered again
   * does not add an entry.
   */
  lemma RegisterListing(slugs: seq<string>, modules: map<string, NavModule>, m: NavModule)
    requires Distinct(slugs) && forall s :: s in slugs <==> s in modules
    ensures var slugs' := if m.slug in modules then slugs else slugs + [m.slug];
            var after := InOrder(slugs', modules[m.slug := m]);
            var before := InOrder(slugs, modules);
            (m.slug in modules ==> |after| == |before|) &&
            (m.slug !in modules ==> |after| == |before| + 1 && after[|before|] == m) &&
            (forall k :: 0 <= k < |before| ==> after[k] == if slugs[k] == m.slug then m else before[k]) &&
            m in after
  {
    var slugs' := if m.slug in modules then slugs else slugs + [m.slug];
    var after := InOrder(slugs', modules[m.slug := m]);
    InOrderUpdated(slugs, slugs', modules, m);
    if m.slug in modules {
      var k :| 0 <= k < |slugs| && slugs[k] == m.slug;
      assert after[k] == m;
    } else {
      assert slugs'[|slugs|] == m.slug;
      assert after[|slugs|] == m;
    }
  }

  /** `if module.permission:` then `user.has_perm(module.permission)`, else always. */
  predicate Visible(user: Actor, m: NavModule)
  {
    m.permission.None? || m.permission.value == "" || HasPerm(user, m.permission.value)
  }

  /** The modules of `ms` the user may see, in order. */
  function Permitted(user: Actor, ms: seq<NavModule>): seq<NavModule>
  {
    if ms == [] then [] else Permitted(user, ms[..|ms| - 1]) + (if Visible(user, ms[|ms| - 1]) then [ms[|ms| - 1]] else [])
  }

  /** The menu a request shows: nothing to an anonymous user, else the modules they may see. */
  function NavigationModules(user: Actor, ms: seq<NavModule>): seq<NavModule>
  {
    if !user.isAuthenticated then [] else Permitted(user, ms)
  }

  /** A one-element sequence is a subsequence of any sequence ending with it. */
  lemma {:induction false} LastIsSubsequence<T>(s: seq<T>, x: T)
    ensures SubsequenceOf([x], s + [x])
  {
    if s == [] {
      assert s + [x] == [x] && [x][1..] == [];
    } else if s[0] != x {
      assert (s + [x])[1..] == s[1..] + [x];
      LastIsSubsequence(s[1..], x);
    }
  }

  /** Appending one more element to both sides keeps a subsequence one, and so does appending it to the whole alone. */
  lemma {:induction false} SubsequenceAppend<T>(sub: seq<T>, s: seq<T>, x: T)
    requires SubsequenceOf(sub, s)
    ensures SubsequenceOf(sub + [x], s + [x])
    ensures SubsequenceOf(sub, s + [x])
    decreases |s|
  {
    if sub == [] {
      assert sub + [x] == [x];
      LastIsSubsequence(s, x);
    } else {
      assert s != [];
      assert (s + [x])[1..] == s[1..] + [x];
      assert (sub + [x])[1..] == sub[1..] + [x];
      if sub[0] == s[0] {
        SubsequenceAppend(sub[1..], s[1..], x);
      } else {
        SubsequenceAppend(sub, s[1..], x);
      }
    }
  }

  /**
   * The menu keeps exactly the modules without a permission and those whose
   * permission the user holds, in the registry's order.
   */
  lemma {:induction false} PermittedRules(user: Actor, ms: seq<NavModule>)
    ensures forall m :: m in Permitted(user, ms) <==> m in ms && Visible(user, m)
    ensures SubsequenceOf(Permitted(user, ms), ms)
  {
    if ms == [] {
    } else {
      var init, last := ms[..|ms| - 1], ms[|ms| - 1];
      assert ms == init + [last];
      PermittedRules(user, init);
      SubsequenceAppend(Permitted(user, init), init, last);
      if Visible(user, last) {
        assert Permitted(user, ms) == Permitted(user, init) + [last];
      } else {
        assert Permitted(user, ms) == Permitted(user, init);
      }
    }
  }

  /** Extending the prefix by one module appends it to the menu when the user may see it. */
  lemma PermittedStep(user: Actor, ms: seq<NavModule>, i: nat)
    requires i < |ms|
    ensures Permitted(user, ms[..i + 1]) == Permitted(user, ms[..i]) + if Visible(user, ms[i]) then [ms[i]] else []
  {
    assert ms[..i + 1][..i] == ms[..i];
  }

  /** The menu built from a listing of some set of modules holds exactly that set's visible modules, in listing order. */
  lemma MenuRules(user: Actor, ms: seq<NavModule>, values: set<NavModule>)
    requires forall m :: m in ms <==> m in values
    ensures forall m :: m in NavigationModules(user, ms) <==> user.isAuthenticated && m in values && Visible(user, m)
    ensures SubsequenceOf(NavigationModules(user, ms), ms)
  {
    if user.isAuthenticated {
      PermittedRules(user, ms);
    } else {
      assert NavigationModules(user, ms) == [];
    }
  }

  /**
   * `navigation_context(request)` over the registry's modules: the loop
   * appends each module the user may see.
   */
  method NavigationContext(user: Actor, registry: NavigationRegistry) returns (allowed: seq<NavModule>)
    requires registry.Valid()
    ensures allowed == NavigationModules(user, registry.GetModules())
    ensures !user.isAuthenticated ==> allowed == []
    ensures forall m :: m in allowed <==> user.isAuthenticated && m in registry.modules.Values && Visible(user, m)
    ensures SubsequenceOf(allowed, registry.GetModules())
  {
    var ms := registry.GetModules();
    allowed := [];
    if !user.isAuthenticated {
      MenuRules(user, ms, registry.modules.Values);
      return;
    }
    for i := 0 to |ms|
      invariant allowed == Permitted(user, ms[..i])
    {
      PermittedStep(user, ms, i);
      if ms[i].permission.Some? && ms[i].permission.value != "" {
        if HasPerm(user, ms[i].permission.value) {
          allowed := allowed + [ms[i]];
        }
      } else {
        allowed := allowed + [ms[i]];
      }
    }
    assert ms[..|ms|] == ms;
    MenuRules(user, ms, registry.modules.Values);
  }
}
