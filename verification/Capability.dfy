/** The module catalog, the dependency closure, and a tenant's enabled modules. */
module Capability {
  import opened Wrappers

  datatype Manifest = Manifest(name: string, kernel: bool, offers: seq<string>, needs: seq<string>, objects: seq<string>)

  /** `providers` maps a capability to the one module that provides it, `owners` an object to the one
      that owns it. */
  datatype Registry = Registry(modules: map<string, Manifest>, providers: map<string, string>,
                               owners: map<string, string>, kernel: seq<string>)

  const EMPTY_REGISTRY := Registry(map[], map[], map[], [])

  // ---- Building the catalog ----

  /** None of the names is taken, and none comes twice. */
  predicate Free(taken: map<string, string>, names: seq<string>) {
    && (forall i :: 0 <= i < |names| ==> names[i] !in taken)
    && (forall i, j :: 0 <= i < j < |names| ==> names[i] != names[j])
  }

  /** A module is registered once, and so is each capability and each object. */
  predicate CanAdd(reg: Registry, m: Manifest) {
    m.name !in reg.modules && Free(reg.providers, m.offers) && Free(reg.owners, m.objects)
  }

  function Added(reg: Registry, m: Manifest): Registry {
    Registry(reg.modules[m.name := m],
             Owned(reg.providers, m.offers, m.name),
             Owned(reg.owners, m.objects, m.name),
             if m.kernel then reg.kernel + [m.name] else reg.kernel)
  }

  ghost predicate ProvidersAgree(modules: map<string, Manifest>, providers: map<string, string>) {
    && (forall cap :: cap in providers ==> providers[cap] in modules && cap in modules[providers[cap]].offers)
    && (forall cap, name :: name in modules && cap in modules[name].offers ==> cap in providers && providers[cap] == name)
  }

  ghost predicate OwnersAgree(modules: map<string, Manifest>, owners: map<string, string>) {
    && (forall o :: o in owners ==> owners[o] in modules && o in modules[owners[o]].objects)
    && (forall o, name :: name in modules && o in modules[name].objects ==> o in owners && owners[o] == name)
  }

  /** The maps agree with the manifests. */
  ghost predicate Consistent(reg: Registry) {
    && (forall name :: name in reg.modules ==> reg.modules[name].name == name)
    && ProvidersAgree(reg.modules, reg.providers) && OwnersAgree(reg.modules, reg.owners)
    && KernelListed(reg.modules, reg.kernel)
  }

  ghost predicate KernelListed(modules: map<string, Manifest>, kernel: seq<string>) {
    forall name :: name in kernel <==> name in modules && modules[name].kernel
  }

  /** Every required capability has a provider. */
  predicate ValidGraph(reg: Registry) {
    forall name :: name in reg.modules ==> forall cap :: cap in reg.modules[name].needs ==> cap in reg.providers
  }

  lemma FreeNext(taken: map<string, string>, names: seq<string>, i: nat)
    requires i < |names|
    ensures Free(taken, names[..i + 1]) <==> Free(taken, names[..i]) && names[i] !in taken && names[i] !in names[..i]
  {
    var init, all := names[..i], names[..i + 1];
    assert forall k :: 0 <= k < i ==> all[k] == init[k];
    assert all[i] == names[i];
    if names[i] in init {
      var k :| 0 <= k < i && init[k] == names[i];
      assert all[k] == all[i];
    }
  }

  lemma FreePrefix(taken: map<string, string>, names: seq<string>, n: nat)
    requires n <= |names|
    ensures Free(taken, names) ==> Free(taken, names[..n])
  {
  }

  function Owned(taken: map<string, string>, names: seq<string>, owner: string): (r: map<string, string>)
    ensures forall x :: x in r <==> x in taken || x in names
    ensures forall x :: x in r ==> r[x] == if x in names then owner else taken[x]
  {
    taken + map name | name in names :: owner
  }

  lemma OwnedNext(taken: map<string, string>, names: seq<string>, owner: string, i: nat)
    requires i < |names|
    ensures Owned(taken, names[..i], owner)[names[i] := owner] == Owned(taken, names[..i + 1], owner)
  {
    assert names[..i + 1] == names[..i] + [names[i]];
  }

  lemma OwnedNone(taken: map<string, string>, names: seq<string>, owner: string)
    ensures Free(taken, names[..0]) && Owned(taken, names[..0], owner) == taken
  {
  }

  /** Register a module's capabilities, or its objects; nothing when one has an owner already. */
  method AddOwned(taken: map<string, string>, names: seq<string>, owner: string) returns (r: Option<map<string, string>>)
    ensures r == if Free(taken, names) then Some(Owned(taken, names, owner)) else None
  {
    var out := taken;
    OwnedNone(taken, names, owner);
    for i := 0 to |names|
      invariant Free(taken, names[..i]) && out == Owned(taken, names[..i], owner)
    {
      OwnedNext(taken, names, owner, i);
      FreeNext(taken, names, i);
      if names[i] in out {
        FreePrefix(taken, names, i + 1);
        return None;
      }
      out := out[names[i] := owner];
    }
    assert names[..|names|] == names;
    return Some(out);
  }

  method Add(reg: Registry, m: Manifest) returns (r: Option<Registry>)
    requires Consistent(reg)
    ensures r == if CanAdd(reg, m) then Some(Added(reg, m)) else None
    ensures r.Some? ==> Consistent(r.value)
  {
    if m.name in reg.modules {
      return None;
    }
    var providers := AddOwned(reg.providers, m.offers, m.name);
    if providers.None? {
      return None;
    }
    var owners := AddOwned(reg.owners, m.objects, m.name);
    if owners.None? {
      return None;
    }
    AddedConsistent(reg, m);
    return Some(Registry(reg.modules[m.name := m], providers.value, owners.value,
                         if m.kernel then reg.kernel + [m.name] else reg.kernel));
  }

  lemma AddedProviders(modules: map<string, Manifest>, providers: map<string, string>, m: Manifest)
    requires ProvidersAgree(modules, providers) && m.name !in modules && Free(providers, m.offers)
    ensures ProvidersAgree(modules[m.name := m], Owned(providers, m.offers, m.name))
  {
    FreeOfAll(providers, m.offers);
  }

  lemma AddedOwners(modules: map<string, Manifest>, owners: map<string, string>, m: Manifest)
    requires OwnersAgree(modules, owners) && m.name !in modules && Free(owners, m.objects)
    ensures OwnersAgree(modules[m.name := m], Owned(owners, m.objects, m.name))
  {
    FreeOfAll(owners, m.objects);
  }

  lemma AddedConsistent(reg: Registry, m: Manifest)
    requires Consistent(reg) && CanAdd(reg, m)
    ensures Consistent(Added(reg, m))
  {
    AddedProviders(reg.modules, reg.providers, m);
    AddedOwners(reg.modules, reg.owners, m);
    AddedKernel(reg.modules, reg.kernel, m);
  }

  lemma AddedKernel(modules: map<string, Manifest>, kernel: seq<string>, m: Manifest)
    requires KernelListed(modules, kernel) && m.name !in modules
    ensures KernelListed(modules[m.name := m], if m.kernel then kernel + [m.name] else kernel)
  {
  }

  predicate Apart(a: seq<string>, b: seq<string>) {
    forall x :: x in a ==> x !in b
  }

  predicate Once(names: seq<string>) {
    forall i, j :: 0 <= i < j < |names| ==> names[i] != names[j]
  }

  /** No two manifests share a module name, a capability or an object, and none lists one twice. */
  predicate NoClash(manifests: seq<Manifest>) {
    && (forall i :: 0 <= i < |manifests| ==> Once(manifests[i].offers) && Once(manifests[i].objects))
    && (forall i, j :: 0 <= i < j < |manifests| ==>
          && manifests[i].name != manifests[j].name
          && Apart(manifests[i].offers, manifests[j].offers) && Apart(manifests[i].objects, manifests[j].objects))
  }

  ghost predicate Offered(manifests: seq<Manifest>, cap: string) {
    exists i :: 0 <= i < |manifests| && cap in manifests[i].offers
  }

  ghost predicate NeedsMet(manifests: seq<Manifest>) {
    forall i, cap :: 0 <= i < |manifests| && cap in manifests[i].needs ==> Offered(manifests, cap)
  }

  /** The catalog holds exactly these manifests. */
  ghost predicate Holds(reg: Registry, manifests: seq<Manifest>) {
    && (forall i :: 0 <= i < |manifests| ==> manifests[i].name in reg.modules && reg.modules[manifests[i].name] == manifests[i])
    && (forall name :: name in reg.modules ==> exists i :: 0 <= i < |manifests| && manifests[i].name == name)
  }

  lemma HeldOffers(reg: Registry, manifests: seq<Manifest>)
    requires Consistent(reg) && Holds(reg, manifests)
    ensures forall cap :: cap in reg.providers <==> Offered(manifests, cap)
    ensures forall o :: o in reg.owners <==> exists i :: 0 <= i < |manifests| && o in manifests[i].objects
  {
    forall cap ensures cap in reg.providers <==> Offered(manifests, cap) {
      if cap in reg.providers {
        var name := reg.providers[cap];
        var i :| 0 <= i < |manifests| && manifests[i].name == name;
        assert cap in manifests[i].offers;
      }
      if Offered(manifests, cap) {
        var i :| 0 <= i < |manifests| && cap in manifests[i].offers;
        assert manifests[i].name in reg.modules && cap in reg.modules[manifests[i].name].offers;
      }
    }
    forall o ensures o in reg.owners <==> exists i :: 0 <= i < |manifests| && o in manifests[i].objects {
      if o in reg.owners {
        var i :| 0 <= i < |manifests| && manifests[i].name == reg.owners[o];
        assert o in manifests[i].objects;
      }
      if i: int :| 0 <= i < |manifests| && o in manifests[i].objects {
        assert manifests[i].name in reg.modules && o in reg.modules[manifests[i].name].objects;
      }
    }
  }

  lemma FreeOfAll(taken: map<string, string>, names: seq<string>)
    ensures Free(taken, names) <==> Once(names) && forall x :: x in names ==> x !in taken
  {
    if !(forall i :: 0 <= i < |names| ==> names[i] !in taken) {
      var i :| 0 <= i < |names| && names[i] in taken;
      assert names[i] in names;
    }
  }

  /** The next manifest can be added exactly when it clashes with none before it. */
  lemma NextFits(reg: Registry, init: seq<Manifest>, m: Manifest)
    requires Consistent(reg) && Holds(reg, init) && NoClash(init)
    ensures CanAdd(reg, m) <==> NoClash(init + [m])
  {
    var all := init + [m];
    HeldOffers(reg, init);
    FreeOfAll(reg.providers, m.offers);
    FreeOfAll(reg.owners, m.objects);
    if NoClash(all) {
      forall i | 0 <= i < |init| ensures init[i].name != m.name && Apart(init[i].offers, m.offers) && Apart(init[i].objects, m.objects) {
        assert all[i] == init[i] && all[|init|] == m;
      }
      assert Once(all[|init|].offers) && Once(all[|init|].objects);
    }
    if CanAdd(reg, m) {
      forall i, j | 0 <= i < j < |all|
        ensures all[i].name != all[j].name && Apart(all[i].offers, all[j].offers) && Apart(all[i].objects, all[j].objects)
      {
        if j == |init| {
          forall x | x in init[i].offers ensures x !in m.offers { assert Offered(init, x); }
          forall x | x in init[i].objects ensures x !in m.objects { }
        }
      }
    }
  }

  lemma AddedHolds(reg: Registry, init: seq<Manifest>, m: Manifest)
    requires Holds(reg, init) && CanAdd(reg, m)
    ensures Holds(Added(reg, m), init + [m])
  {
    var all := init + [m];
    forall name | name in Added(reg, m).modules ensures exists i :: 0 <= i < |all| && all[i].name == name {
      if name == m.name {
        assert all[|init|].name == name;
      } else {
        var i :| 0 <= i < |init| && init[i].name == name;
        assert all[i].name == name;
      }
    }
  }

  lemma ClashStays(manifests: seq<Manifest>, n: nat)
    requires n <= |manifests|
    ensures NoClash(manifests) ==> NoClash(manifests[..n])
  {
    assert forall i :: 0 <= i < n ==> manifests[..n][i] == manifests[i];
  }

  lemma GraphOf(reg: Registry, manifests: seq<Manifest>)
    requires Consistent(reg) && Holds(reg, manifests)
    ensures ValidGraph(reg) <==> NeedsMet(manifests)
  {
    HeldOffers(reg, manifests);
    if ValidGraph(reg) {
      forall i, cap | 0 <= i < |manifests| && cap in manifests[i].needs ensures Offered(manifests, cap) {
        assert manifests[i].name in reg.modules && cap in reg.modules[manifests[i].name].needs;
      }
    }
    if NeedsMet(manifests) {
      forall name, cap | name in reg.modules && cap in reg.modules[name].needs ensures cap in reg.providers {
        var i :| 0 <= i < |manifests| && manifests[i].name == name;
        assert Offered(manifests, cap);
      }
    }
  }

  /** The catalog of a list of manifests: there is one exactly when none clash and every requirement has
      a provider. */
  method Load(manifests: seq<Manifest>) returns (r: Option<Registry>)
    ensures r.Some? <==> NoClash(manifests) && NeedsMet(manifests)
    ensures r.Some? ==> Consistent(r.value) && ValidGraph(r.value) && Holds(r.value, manifests)
  {
    var reg := EMPTY_REGISTRY;
    for i := 0 to |manifests|
      invariant Consistent(reg) && Holds(reg, manifests[..i]) && NoClash(manifests[..i])
    {
      assert manifests[..i + 1] == manifests[..i] + [manifests[i]];
      NextFits(reg, manifests[..i], manifests[i]);
      var next := Add(reg, manifests[i]);
      if next.None? {
        ClashStays(manifests, i + 1);
        return None;
      }
      AddedHolds(reg, manifests[..i], manifests[i]);
      reg := next.value;
    }
    assert manifests[..|manifests|] == manifests;
    GraphOf(reg, manifests);
    if !ValidGraph(reg) {
      return None;
    }
    return Some(reg);
  }

  // ---- Closures ----

  predicate ClosedUnder(reg: Registry, on: set<string>, name: string) {
    name in reg.modules ==>
      forall i :: 0 <= i < |reg.modules[name].needs| ==>
        reg.modules[name].needs[i] in reg.providers && reg.providers[reg.modules[name].needs[i]] in on
  }

  predicate Covered(reg: Registry, cap: string, on: set<string>) {
    cap in reg.providers && reg.providers[cap] in on
  }

  /** Every module that is on finds its requirements on. */
  predicate DependencyClosed(reg: Registry, on: set<string>) {
    forall name :: name in on ==> ClosedUnder(reg, on, name)
  }

  predicate KernelOn(reg: Registry, on: set<string>) {
    forall name :: name in reg.kernel ==> name in on
  }

  /** The least set that holds the seeds and the kernel and is closed under requirements. */
  ghost predicate IsClosure(reg: Registry, seeds: seq<string>, on: set<string>) {
    && (forall name :: name in seeds ==> name in on)
    && KernelOn(reg, on) && DependencyClosed(reg, on)
    && (forall other: set<string> :: Admits(reg, seeds, other) ==> on <= other)
  }

  ghost predicate Admits(reg: Registry, seeds: seq<string>, other: set<string>) {
    (forall name :: name in seeds ==> name in other) && KernelOn(reg, other) && DependencyClosed(reg, other)
  }

  predicate AllKnown(reg: Registry, names: seq<string>) {
    forall i :: 0 <= i < |names| ==> names[i] in reg.modules
  }

  /** What the worklist has left to do: everything on is known, and a module whose requirements may
      still be off is queued. */
  ghost predicate Progress(reg: Registry, seeds: seq<string>, on: set<string>, queue: seq<string>) {
    && (forall name :: name in on ==> name in reg.modules)
    && (forall name :: name in queue ==> name in on)
    && (forall name :: name in on && name !in queue ==> ClosedUnder(reg, on, name))
    && (forall other: set<string> :: Admits(reg, seeds, other) ==> on <= other)
  }

  /** The transitive closure by worklist; nothing when a seed is unknown. */
  method Closure(reg: Registry, seeds: seq<string>) returns (r: Option<set<string>>)
    requires Consistent(reg) && ValidGraph(reg)
    ensures r.Some? <==> AllKnown(reg, seeds)
    ensures r.Some? ==> IsClosure(reg, seeds, r.value) && forall name :: name in r.value ==> name in reg.modules
  {
    var on: set<string> := set name | name in reg.kernel;
    var queue: seq<string> := [];
    for i := 0 to |seeds|
      invariant AllKnown(reg, seeds[..i])
      invariant forall name :: name in on <==> name in reg.kernel || name in seeds[..i]
      invariant forall name :: name in queue ==> name in on
      invariant forall name :: name in on && name !in reg.kernel ==> name in queue
    {
      assert seeds[..i + 1] == seeds[..i] + [seeds[i]];
      if seeds[i] !in reg.modules {
        return None;
      }
      if seeds[i] !in on {
        on, queue := on + {seeds[i]}, queue + [seeds[i]];
      }
    }
    assert seeds[..|seeds|] == seeds;
    queue := queue + reg.kernel;
    while queue != []
      invariant AllKnown(reg, seeds)
      invariant forall name :: name in seeds ==> name in on
      invariant KernelOn(reg, on) && Progress(reg, seeds, on, queue)
      decreases reg.modules.Keys - on, |queue|
    {
      on, queue := Visit(reg, seeds, on, queue);
    }
    return Some(on);
  }

  /** The state of the worklist while module `name` is being visited. */
  ghost predicate Visiting(reg: Registry, seeds: seq<string>, on: set<string>, queue: seq<string>, name: string) {
    && name in on && Progress(reg, seeds, on, [name] + queue)
  }

  lemma Pushed(reg: Registry, seeds: seq<string>, on: set<string>, queue: seq<string>, name: string, provider: string)
    requires Visiting(reg, seeds, on, queue, name) && provider in reg.modules
    requires forall other: set<string> :: Admits(reg, seeds, other) ==> provider in other
    ensures Visiting(reg, seeds, on + {provider}, queue + [provider], name)
  {
    var on', queue' := on + {provider}, [name] + (queue + [provider]);
    forall x | x in on' && x !in queue' ensures ClosedUnder(reg, on', x) {
      assert provider in queue + [provider];
      assert x in [name] + queue ==> x in queue';
      assert ClosedUnder(reg, on, x);
    }
  }

  lemma Needed(reg: Registry, seeds: seq<string>, on: set<string>, queue: seq<string>, name: string, i: nat)
    requires Consistent(reg) && ValidGraph(reg) && Visiting(reg, seeds, on, queue, name)
    requires name in reg.modules && i < |reg.modules[name].needs|
    ensures reg.modules[name].needs[i] in reg.providers
    ensures
      var provider := reg.providers[reg.modules[name].needs[i]];
      provider in reg.modules && forall other: set<string> :: Admits(reg, seeds, other) ==> provider in other
  {
    assert reg.modules[name].needs[i] in reg.modules[name].needs;
    var provider := reg.providers[reg.modules[name].needs[i]];
    forall other: set<string> | Admits(reg, seeds, other) ensures provider in other {
      assert name in other && ClosedUnder(reg, other, name);
    }
  }

  /** Take the first module off the queue, and turn on and queue whatever provides its requirements. */
  method Visit(reg: Registry, seeds: seq<string>, on: set<string>, queue: seq<string>) returns (on': set<string>, queue': seq<string>)
    requires Consistent(reg) && ValidGraph(reg) && queue != [] && Progress(reg, seeds, on, queue)
    ensures Progress(reg, seeds, on', queue') && on <= on'
    ensures on' == on ==> |queue'| < |queue|
    ensures on' != on ==> reg.modules.Keys - on' < reg.modules.Keys - on
  {
    var name := queue[0];
    on', queue' := on, queue[1..];
    assert queue == [name] + queue[1..];
    for i := 0 to |reg.modules[name].needs|
      invariant on <= on' && (on' == on ==> queue' == queue[1..])
      invariant Visiting(reg, seeds, on', queue', name)
      invariant forall k :: 0 <= k < i ==> Covered(reg, reg.modules[name].needs[k], on')
    {
      Needed(reg, seeds, on', queue', name, i);
      var provider := reg.providers[reg.modules[name].needs[i]];
      if provider !in on' {
        Pushed(reg, seeds, on', queue', name, provider);
        on', queue' := on' + {provider}, queue' + [provider];
      }
    }
    Visited(reg, seeds, on', queue', name);
    if on' != on {
      var added :| added in on' && added !in on;
      assert added in reg.modules.Keys - on && added !in reg.modules.Keys - on';
    }
  }

  lemma Visited(reg: Registry, seeds: seq<string>, on: set<string>, queue: seq<string>, name: string)
    requires Visiting(reg, seeds, on, queue, name) && name in reg.modules
    requires forall k :: 0 <= k < |reg.modules[name].needs| ==> Covered(reg, reg.modules[name].needs[k], on)
    ensures Progress(reg, seeds, on, queue)
  {
    forall x | x in on && x !in queue ensures ClosedUnder(reg, on, x) {
      if x != name { assert x !in [name] + queue; }
    }
  }

  /** There is only one closure. */
  lemma ClosureUnique(reg: Registry, seeds: seq<string>, a: set<string>, b: set<string>)
    requires IsClosure(reg, seeds, a) && IsClosure(reg, seeds, b)
    ensures a == b
  {
    assert Admits(reg, seeds, a) && Admits(reg, seeds, b);
  }

  // ---- Enabling and disabling ----

  /** Kernel modules require only what kernel modules provide. */
  ghost predicate KernelSelfContained(reg: Registry) {
    forall name, cap :: name in reg.modules && reg.modules[name].kernel && cap in reg.modules[name].needs ==>
      cap in reg.providers && reg.providers[cap] in reg.modules && reg.modules[reg.providers[cap]].kernel
  }

  /** A tenant's state: nothing, or a dependency-closed set with the kernel on. */
  ghost predicate Sane(reg: Registry, on: set<string>) {
    && (forall name :: name in on ==> name in reg.modules)
    && DependencyClosed(reg, on)
    && (on != {} ==> KernelOn(reg, on))
  }

  /** One of the module's base requirements is not met; kernel modules are not looked at. */
  predicate Broken(reg: Registry, name: string, remaining: set<string>) {
    name in reg.modules && !reg.modules[name].kernel
    && exists i :: 0 <= i < |reg.modules[name].needs| && !Covered(reg, reg.modules[name].needs[i], remaining)
  }

  datatype Impact = UnknownModule | KernelModule | Breaks(modules: set<string>)

  method DisableImpact(reg: Registry, enabled: set<string>, name: string) returns (r: Impact)
    ensures r.UnknownModule? <==> name !in reg.modules
    ensures r.KernelModule? <==> name in reg.modules && reg.modules[name].kernel
    ensures r.Breaks? ==> forall x :: x in r.modules <==> x in enabled && x != name && Broken(reg, x, enabled - {name})
  {
    if name !in reg.modules {
      return UnknownModule;
    }
    if reg.modules[name].kernel {
      return KernelModule;
    }
    var remaining := enabled - {name};
    var broken: set<string> := {};
    var left := remaining;
    while left != {}
      invariant left <= remaining
      invariant forall x :: x in broken <==> x in remaining && x !in left && Broken(reg, x, remaining)
      decreases left
    {
      var x :| x in left;
      left := left - {x};
      if Broken(reg, x, remaining) {
        broken := broken + {x};
      }
    }
    return Breaks(broken);
  }

  /** Disabling a module leaves the rest closed exactly when no enabled module requires what it provides. */
  lemma DisableKeepsClosed(reg: Registry, on: set<string>, name: string)
    requires Consistent(reg) && Sane(reg, on) && name in on && !reg.modules[name].kernel
    ensures Sane(reg, on - {name}) <==>
            forall x :: x in on && x != name ==> forall i :: 0 <= i < |reg.modules[x].needs| ==>
              reg.providers[reg.modules[x].needs[i]] != name
  {
    var rest := on - {name};
    forall x | x in rest
      ensures ClosedUnder(reg, rest, x) <==> forall i :: 0 <= i < |reg.modules[x].needs| ==> reg.providers[reg.modules[x].needs[i]] != name
    {
      assert ClosedUnder(reg, on, x);
    }
    assert KernelOn(reg, on) ==> KernelOn(reg, rest);
  }

  /** The reverse-dependency check sees only other than kernel modules, so it is enough exactly when no
      enabled kernel module requires what the module provides. */
  lemma ImpactIsEnough(reg: Registry, on: set<string>, name: string)
    requires Consistent(reg) && Sane(reg, on) && name in on && !reg.modules[name].kernel
    requires forall x :: x in on && x != name ==> !Broken(reg, x, on - {name})
    ensures Sane(reg, on - {name}) <==>
            forall k :: k in on && reg.modules[k].kernel ==> forall i :: 0 <= i < |reg.modules[k].needs| ==>
              reg.providers[reg.modules[k].needs[i]] != name
  {
    DisableKeepsClosed(reg, on, name);
    forall x | x in on && x != name && !reg.modules[x].kernel
      ensures forall i :: 0 <= i < |reg.modules[x].needs| ==> reg.providers[reg.modules[x].needs[i]] != name
    {
      assert !Broken(reg, x, on - {name});
      assert forall i :: 0 <= i < |reg.modules[x].needs| ==> Covered(reg, reg.modules[x].needs[i], on - {name});
    }
  }

  lemma SelfContainedKernel(reg: Registry, on: set<string>, name: string)
    requires Consistent(reg) && KernelSelfContained(reg) && Sane(reg, on) && name in on && !reg.modules[name].kernel
    requires forall x :: x in on && x != name ==> !Broken(reg, x, on - {name})
    ensures Sane(reg, on - {name})
  {
    forall k, i | k in on && reg.modules[k].kernel && 0 <= i < |reg.modules[k].needs|
      ensures reg.providers[reg.modules[k].needs[i]] != name
    {
      assert reg.modules[k].needs[i] in reg.modules[k].needs;
    }
    ImpactIsEnough(reg, on, name);
  }

  lemma UnionSane(reg: Registry, a: set<string>, b: set<string>)
    requires Sane(reg, a) && Sane(reg, b)
    ensures Sane(reg, a + b)
  {
    forall name | name in a + b ensures ClosedUnder(reg, a + b, name) {
      if name in a { assert ClosedUnder(reg, a, name); } else { assert ClosedUnder(reg, b, name); }
    }
    assert a != {} ==> KernelOn(reg, a);
  }

  lemma ClosureSane(reg: Registry, seeds: seq<string>, on: set<string>)
    requires IsClosure(reg, seeds, on) && forall name :: name in on ==> name in reg.modules
    ensures Sane(reg, on)
  {
  }

  datatype Result = Done(changed: set<string>) | Unknown | NotDisableable | InUse(dependents: set<string>) | Pending

  /** A tenant's stored enable-state over a fixed catalog. */
  class ModuleState {
    const reg: Registry
    var on: set<string>

    ghost predicate Valid()
      reads this
    {
      Consistent(reg) && ValidGraph(reg) && KernelSelfContained(reg) && Sane(reg, on)
    }

    constructor (reg: Registry)
      requires Consistent(reg) && ValidGraph(reg) && KernelSelfContained(reg)
      ensures Valid() && this.reg == reg && on == {}
    {
      this.reg := reg;
      on := {};
    }

    /** Turn a module on with everything it needs; `changed` is what the preview shows. */
    method Enable(name: string) returns (r: Result)
      requires Valid()
      modifies this`on
      ensures Valid()
      ensures if name in reg.modules then r.Done? else r == Unknown && on == old(on)
      ensures r.Done? ==>
                && on == old(on) + r.changed && r.changed !! old(on) && name in on
                && forall other: set<string> :: Sane(reg, other) && old(on) <= other && name in other ==> on <= other
    {
      if name !in reg.modules {
        return Unknown;
      }
      var names := ListOf(on);
      var full := Closure(reg, names + [name]);
      ClosureSane(reg, names + [name], full.value);
      assert name in names + [name];
      forall other: set<string> | Sane(reg, other) && on <= other && name in other ensures full.value <= other {
        assert Admits(reg, names + [name], other);
      }
      var added := full.value - on;
      assert forall x :: x in on ==> x in names + [name];
      assert full.value == on + added;
      on := on + added;
      return Done(added);
    }

    /** The enabled modules as a list. */
    method ListOf(names: set<string>) returns (list: seq<string>)
      requires Valid() && names == on
      ensures forall x :: x in list <==> x in names
      ensures AllKnown(reg, list)
    {
      list := [];
      var left := names;
      while left != {}
        invariant left <= names
        invariant forall x :: x in list <==> x in names && x !in left
        decreases left
      {
        var x :| x in left;
        left, list := left - {x}, list + [x];
      }
      assert forall i :: 0 <= i < |list| ==> list[i] in list;
    }

    method Disable(name: string) returns (r: Result)
      requires Valid()
      modifies this`on
      ensures Valid()
      ensures on == if r.Done? then old(on) - {name} else old(on)
      ensures name !in old(on) ==> r == Done({})
      ensures name in old(on) && reg.modules[name].kernel ==> r == NotDisableable
      ensures r.InUse? ==> r.dependents != {} && forall x :: x in r.dependents <==> x in on && x != name && Broken(reg, x, on - {name})
      ensures r.Done? && name in old(on) ==> r.changed == {name} && Sane(reg, old(on) - {name})
      ensures name in old(on) && Sane(reg, old(on) - {name}) && !reg.modules[name].kernel ==> r.Done?
    {
      if name !in on {
        return Done({});
      }
      var impact := DisableImpact(reg, on, name);
      if impact.KernelModule? {
        return NotDisableable;
      }
      if impact.modules != {} {
        NotSaneWithout(reg, on, name, impact.modules);
        return InUse(impact.modules);
      }
      SelfContainedKernel(reg, on, name);
      on := on - {name};
      return Done({name});
    }

    /** Turn on a whole profile; `pending` profiles are refused. */
    method ApplyProfile(modules: seq<string>, pending: bool) returns (r: Result)
      requires Valid()
      modifies this`on
      ensures Valid()
      ensures pending ==> r == Pending && on == old(on)
      ensures !pending && !AllKnown(reg, modules) ==> r == Unknown && on == old(on)
      ensures !pending && AllKnown(reg, modules) ==> r.Done? && IsClosure(reg, modules, r.changed) && on == old(on) + r.changed
    {
      if pending {
        return Pending;
      }
      var closure := Closure(reg, modules);
      if closure.None? {
        return Unknown;
      }
      ClosureSane(reg, modules, closure.value);
      UnionSane(reg, on, closure.value);
      on := on + closure.value;
      return Done(closure.value);
    }
  }

  lemma NotSaneWithout(reg: Registry, on: set<string>, name: string, broken: set<string>)
    requires broken != {} && forall x :: x in broken ==> x in on && x != name && Broken(reg, x, on - {name})
    ensures !Sane(reg, on - {name})
  {
    var x :| x in broken;
    var i :| 0 <= i < |reg.modules[x].needs| && !Covered(reg, reg.modules[x].needs[i], on - {name});
    assert !ClosedUnder(reg, on - {name}, x);
  }

  /** Without the premise, the kernel itself can lose a requirement: disabling is not refused, because
      the only dependent is a kernel module. */
  lemma KernelCanBreak()
    ensures
      var reg := Registry(map["k" := Manifest("k", true, [], ["c"], []), "x" := Manifest("x", false, ["c"], [], [])],
                          map["c" := "x"], map[], ["k"]);
      && Consistent(reg) && ValidGraph(reg) && Sane(reg, {"k", "x"})
      && !Broken(reg, "k", {"k"}) && !Sane(reg, {"k"})
  {
    var k, x := Manifest("k", true, [], ["c"], []), Manifest("x", false, ["c"], [], []);
    var reg := Registry(map["k" := k, "x" := x], map["c" := "x"], map[], ["k"]);
    assert x.offers[0] == "c" && k.needs[0] == "c";
    assert "x" in reg.modules && "c" in reg.modules["x"].offers;
    assert !ClosedUnder(reg, {"k"}, "k");
  }
}
