/**
 Layered configuration: profiles sorted by layer, then applied lowest first.

 ResolvesTo: it succeeds exactly when no key has two definitions at one layer and nothing is
 above a pinned definition; each key then takes its highest definition and lists all the
 others, ascending.  OrderDoesNotMatter: the values are the same for every order of
 the profiles.
 */
module Configuration {
  import opened Results

  datatype Variable = Variable(name: string, value: Option<string>, secret: Option<string>, overridable: bool)

  datatype Profile = Profile(name: string, layer: int, variables: seq<Variable>)

  datatype Resolved = Resolved(
    value: Option<string>, secret: Option<string>, layer: int, source: string, overridden: seq<(int, string)>)

  datatype Conflict =
    | DefinedTwice(name: string, layer: int, first: string, second: string)
    | Pinned(name: string, layer: int, profile: string, attempted: int, attemptedBy: string)

  datatype Trace = Trace(values: map<string, Resolved>, applied: seq<string>)

  // -- sorting by layer ------------------------------------------------------------------------

  function Insert(p: Profile, sorted: seq<Profile>): seq<Profile> {
    if sorted == [] || p.layer <= sorted[0].layer then [p] + sorted else [sorted[0]] + Insert(p, sorted[1..])
  }

  /** By layer, profiles of one layer in the order given. */
  function ByLayer(profiles: seq<Profile>): seq<Profile> {
    if profiles == [] then [] else Insert(profiles[0], ByLayer(profiles[1..]))
  }

  predicate Ascending(profiles: seq<Profile>) {
    forall i, j | 0 <= i < j < |profiles| :: profiles[i].layer <= profiles[j].layer
  }

  function AtLayer(profiles: seq<Profile>, layer: int): seq<Profile> {
    if profiles == [] then []
    else (if profiles[0].layer == layer then [profiles[0]] else []) + AtLayer(profiles[1..], layer)
  }

  lemma {:induction false} InsertAdds(p: Profile, sorted: seq<Profile>)
    ensures multiset(Insert(p, sorted)) == multiset{p} + multiset(sorted)
  {
    if sorted != [] && sorted[0].layer < p.layer {
      InsertAdds(p, sorted[1..]);
      assert sorted == [sorted[0]] + sorted[1..];
    }
  }

  lemma {:induction false} InsertKeeps(p: Profile, sorted: seq<Profile>)
    requires Ascending(sorted)
    ensures Ascending(Insert(p, sorted))
  {
    if sorted != [] && sorted[0].layer < p.layer {
      InsertKeeps(p, sorted[1..]);
      InsertAdds(p, sorted[1..]);
      var rest := Insert(p, sorted[1..]);
      forall q | q in rest ensures sorted[0].layer <= q.layer {
        assert q in multiset(rest);
        assert q == p || q in sorted[1..];
      }
    }
  }

  lemma {:induction false} InsertIsStable(p: Profile, sorted: seq<Profile>, layer: int)
    ensures AtLayer(Insert(p, sorted), layer) == (if p.layer == layer then [p] else []) + AtLayer(sorted, layer)
  {
    if sorted != [] && sorted[0].layer < p.layer {
      InsertIsStable(p, sorted[1..], layer);
    } else {
      assert ([p] + sorted)[1..] == sorted;
    }
  }

  /** The sort is a permutation, ascending, and stable. */
  lemma {:induction false} ByLayerSorts(profiles: seq<Profile>, layer: int)
    ensures Ascending(ByLayer(profiles))
    ensures multiset(ByLayer(profiles)) == multiset(profiles)
    ensures AtLayer(ByLayer(profiles), layer) == AtLayer(profiles, layer)
  {
    if profiles != [] {
      ByLayerSorts(profiles[1..], layer);
      var sorted := ByLayer(profiles[1..]);
      InsertKeeps(profiles[0], sorted);
      InsertAdds(profiles[0], sorted);
      InsertIsStable(profiles[0], sorted, layer);
      assert profiles == [profiles[0]] + profiles[1..];
    }
  }

  // -- definitions -----------------------------------------------------------------------------

  /** One variable of one profile. */
  datatype Definition = Definition(layer: int, profile: string, variable: Variable)

  function DefinitionsIn(p: Profile): seq<Definition> {
    seq(|p.variables|, i requires 0 <= i < |p.variables| => Definition(p.layer, p.name, p.variables[i]))
  }

  function Definitions(profiles: seq<Profile>): seq<Definition> {
    if profiles == [] then [] else DefinitionsIn(profiles[0]) + Definitions(profiles[1..])
  }

  /** No key twice at one layer. */
  predicate NoneTwice(ds: seq<Definition>) {
    forall i, j | 0 <= i < j < |ds| :: ds[i].variable.name == ds[j].variable.name ==> ds[i].layer != ds[j].layer
  }

  /** Nothing above a definition that must not be overridden. */
  predicate PinsKept(ds: seq<Definition>) {
    forall d, e | d in ds && e in ds && d.variable.name == e.variable.name && d.layer < e.layer :: d.variable.overridable
  }

  /** A key's value: from its highest definition, with all the others listed from the lowest up. */
  ghost predicate Means(ds: seq<Definition>, name: string, r: Resolved) {
    && (exists d | d in ds :: d.variable.name == name && Gives(d, r) && forall e | e in ds && e.variable.name == name :: e.layer <= d.layer)
    && (forall i, j | 0 <= i < j < |r.overridden| :: r.overridden[i].0 < r.overridden[j].0)
    && (forall o :: o in r.overridden <==> o.0 != r.layer && exists e | e in ds :: e.variable.name == name && (e.layer, e.profile) == o)
  }

  predicate Gives(d: Definition, r: Resolved) {
    r.value == d.variable.value && r.secret == d.variable.secret && r.layer == d.layer && r.source == d.profile
  }

  ghost predicate ValuesMean(ds: seq<Definition>, values: map<string, Resolved>) {
    && (forall name :: name in values <==> exists d | d in ds :: d.variable.name == name)
    && (forall name | name in values :: Means(ds, name, values[name]))
  }

  // -- the fold the loops compute --------------------------------------------------------------

  datatype Sofar = Sofar(
    resolved: map<string, Resolved>, pinned: map<string, (int, string)>, claimed: map<(int, string), string>)

  const NOTHING := Sofar(map[], map[], map[])

  function Refused(s: Sofar, d: Definition): Option<Conflict> {
    var name := d.variable.name;
    if (d.layer, name) in s.claimed then Some(DefinedTwice(name, d.layer, s.claimed[(d.layer, name)], d.profile))
    else if name in s.pinned then Some(Pinned(name, s.pinned[name].0, s.pinned[name].1, d.layer, d.profile))
    else None
  }

  function Applied(s: Sofar, d: Definition): Sofar {
    var name := d.variable.name;
    var overridden :=
      if name in s.resolved then s.resolved[name].overridden + [(s.resolved[name].layer, s.resolved[name].source)] else [];
    Sofar(
      s.resolved[name := Resolved(d.variable.value, d.variable.secret, d.layer, d.profile, overridden)],
      if d.variable.overridable then s.pinned else s.pinned[name := (d.layer, d.profile)],
      s.claimed[(d.layer, name) := d.profile])
  }

  function ApplyAll(s: Sofar, ds: seq<Definition>): Result<Sofar, Conflict>
    decreases |ds|
  {
    if ds == [] then Ok(s)
    else
      match Refused(s, ds[0])
      case Some(conflict) => Err(conflict)
      case None => ApplyAll(Applied(s, ds[0]), ds[1..])
  }

  function Names(profiles: seq<Profile>): seq<string> {
    seq(|profiles|, i requires 0 <= i < |profiles| => profiles[i].name)
  }

  function Resolve(profiles: seq<Profile>): Result<Trace, Conflict> {
    var ordered := ByLayer(profiles);
    match ApplyAll(NOTHING, Definitions(ordered))
    case Err(conflict) => Err(conflict)
    case Ok(s) => Ok(Trace(s.resolved, Names(ordered)))
  }

  method ResolveConfiguration(profiles: seq<Profile>) returns (r: Result<Trace, Conflict>)
    ensures r == Resolve(profiles)
  {
    hide ByLayer;
    var ordered := ByLayer(profiles);
    var resolved: map<string, Resolved> := map[];
    var pinned: map<string, (int, string)> := map[];
    var claimed: map<(int, string), string> := map[];
    ghost var all := Definitions(ordered);
    assert ordered[0..] == ordered;
    for i := 0 to |ordered|
      invariant ApplyAll(NOTHING, all) == ApplyAll(Sofar(resolved, pinned, claimed), Definitions(ordered[i..]))
    {
      var profile := ordered[i];
      assert ordered[i..][0] == profile && ordered[i..][1..] == ordered[i + 1..];
      ghost var later := Definitions(ordered[i + 1..]);
      assert DefinitionsIn(profile)[0..] == DefinitionsIn(profile);
      for j := 0 to |profile.variables|
        invariant ApplyAll(NOTHING, all) == ApplyAll(Sofar(resolved, pinned, claimed), DefinitionsIn(profile)[j..] + later)
      {
        var variable := profile.variables[j];
        ghost var d := Definition(profile.layer, profile.name, variable);
        assert DefinitionsIn(profile)[j] == d;
        assert (DefinitionsIn(profile)[j..] + later)[0] == d;
        assert (DefinitionsIn(profile)[j..] + later)[1..] == DefinitionsIn(profile)[j + 1..] + later;
        var key := (profile.layer, variable.name);
        if key in claimed {
          return Err(DefinedTwice(variable.name, profile.layer, claimed[key], profile.name));
        }
        claimed := claimed[key := profile.name];
        if variable.name in pinned {
          return Err(Pinned(variable.name, pinned[variable.name].0, pinned[variable.name].1, profile.layer, profile.name));
        }
        var overridden := [];
        if variable.name in resolved {
          var previous := resolved[variable.name];
          overridden := previous.overridden + [(previous.layer, previous.source)];
        }
        resolved := resolved[variable.name := Resolved(variable.value, variable.secret, profile.layer, profile.name, overridden)];
        if !variable.overridable {
          pinned := pinned[variable.name := (profile.layer, profile.name)];
        }
      }
      assert DefinitionsIn(profile)[|profile.variables|..] + later == later;
    }
    assert ordered[|ordered|..] == [];
    r := Ok(Trace(resolved, Names(ordered)));
  }

  // -- what the fold means ---------------------------------------------------------------------

  predicate InLayerOrder(ds: seq<Definition>) {
    forall i, j | 0 <= i < j < |ds| :: ds[i].layer <= ds[j].layer
  }

  ghost predicate Represents(s: Sofar, ds: seq<Definition>) {
    && (forall layer, name :: (layer, name) in s.claimed <==> exists d | d in ds :: d.layer == layer && d.variable.name == name)
    && (forall name :: name in s.pinned <==> exists d | d in ds :: d.variable.name == name && !d.variable.overridable)
    && ValuesMean(ds, s.resolved)
  }

  lemma RefusedWhen(s: Sofar, ds: seq<Definition>, d: Definition)
    requires Represents(s, ds) && NoneTwice(ds) && PinsKept(ds)
    requires forall e | e in ds :: e.layer <= d.layer
    ensures Refused(s, d).None? <==> NoneTwice(ds + [d]) && PinsKept(ds + [d])
    ensures Refused(s, d).None? ==> forall e | e in ds && e.variable.name == d.variable.name :: e.layer < d.layer
  {
    hide ValuesMean;
    var all := ds + [d];
    assert forall e :: e in all <==> e in ds || e == d;
    if Refused(s, d).None? {
      forall i, j | 0 <= i < j < |all| && all[i].variable.name == all[j].variable.name ensures all[i].layer != all[j].layer {
        if j == |ds| {
          assert all[i] in ds;
        }
      }
    } else if (d.layer, d.variable.name) in s.claimed {
      var e :| e in ds && e.layer == d.layer && e.variable.name == d.variable.name;
      var i :| 0 <= i < |ds| && ds[i] == e;
      assert all[i] == e && all[|ds|] == d;
      assert !NoneTwice(all);
    } else {
      var e :| e in ds && e.variable.name == d.variable.name && !e.variable.overridable;
      assert e in all && d in all && e.layer < d.layer;
      assert !PinsKept(all);
    }
  }

  lemma AppliedMeans(s: Sofar, ds: seq<Definition>, d: Definition, name: string)
    requires NoneTwice(ds) && ValuesMean(ds, s.resolved)
    requires forall e | e in ds && e.variable.name == d.variable.name :: e.layer < d.layer
    requires name in Applied(s, d).resolved
    ensures Means(ds + [d], name, Applied(s, d).resolved[name])
  {
    var all := ds + [d];
    assert forall e :: e in all <==> e in ds || e == d;
    var r := Applied(s, d).resolved[name];
    if name != d.variable.name {
      assert Means(ds, name, s.resolved[name]);
      var w :| w in ds && w.variable.name == name && Gives(w, r) && forall e | e in ds && e.variable.name == name :: e.layer <= w.layer;
      assert w in all;
    } else if name in s.resolved {
      HigherMeans(ds, d, s.resolved[name], r);
    } else {
      assert d in all && Gives(d, r);
    }
  }

  /** A definition above all others of its key takes over, and the value it replaces joins the list. */
  lemma HigherMeans(ds: seq<Definition>, d: Definition, was: Resolved, r: Resolved)
    requires NoneTwice(ds) && Means(ds, d.variable.name, was) && Gives(d, r) && r.overridden == was.overridden + [(was.layer, was.source)]
    requires forall e | e in ds && e.variable.name == d.variable.name :: e.layer < d.layer
    ensures Means(ds + [d], d.variable.name, r)
  {
    var name, all := d.variable.name, ds + [d];
    assert forall e :: e in all <==> e in ds || e == d;
    var w :| w in ds && w.variable.name == name && Gives(w, was) && forall e | e in ds && e.variable.name == name :: e.layer <= w.layer;
    forall i | 0 <= i < |was.overridden| ensures was.overridden[i].0 < was.layer {
      assert was.overridden[i] in was.overridden;
    }
    forall o ensures o in r.overridden <==> o.0 != r.layer && exists e | e in all :: e.variable.name == name && (e.layer, e.profile) == o {
      assert o in r.overridden <==> o in was.overridden || o == (was.layer, was.source);
      if o.0 != r.layer && exists e | e in all :: e.variable.name == name && (e.layer, e.profile) == o {
        var e :| e in all && e.variable.name == name && (e.layer, e.profile) == o;
        if o.0 == was.layer {
          OnlyOneThere(ds, name, was, e);
        }
      }
    }
    assert d in all && Gives(d, r);
  }

  /** Nothing but the winner is at the winner's layer. */
  lemma OnlyOneThere(ds: seq<Definition>, name: string, r: Resolved, e: Definition)
    requires NoneTwice(ds) && Means(ds, name, r) && e in ds && e.variable.name == name && e.layer == r.layer
    ensures e.profile == r.source
  {
    var w :| w in ds && w.variable.name == name && Gives(w, r) && forall e | e in ds && e.variable.name == name :: e.layer <= w.layer;
    var i :| 0 <= i < |ds| && ds[i] == e;
    var j :| 0 <= j < |ds| && ds[j] == w;
    assert i == j;
  }

  lemma AppliedRepresents(s: Sofar, ds: seq<Definition>, d: Definition)
    requires Represents(s, ds) && NoneTwice(ds)
    requires forall e | e in ds && e.variable.name == d.variable.name :: e.layer < d.layer
    ensures Represents(Applied(s, d), ds + [d])
  {
    hide Means, NoneTwice;
    var all, next := ds + [d], Applied(s, d);
    assert forall e :: e in all <==> e in ds || e == d;
    forall name | name in next.resolved ensures Means(all, name, next.resolved[name]) {
      AppliedMeans(s, ds, d, name);
    }
  }

  lemma {:induction false} FoldMeans(s: Sofar, sofar: seq<Definition>, rest: seq<Definition>)
    requires Represents(s, sofar) && NoneTwice(sofar) && PinsKept(sofar) && InLayerOrder(sofar + rest)
    ensures ApplyAll(s, rest).Ok? <==> NoneTwice(sofar + rest) && PinsKept(sofar + rest)
    ensures ApplyAll(s, rest).Ok? ==> ValuesMean(sofar + rest, ApplyAll(s, rest).value.resolved)
    decreases |rest|
  {
    hide ValuesMean, NoneTwice, PinsKept, Refused, Applied;
    if rest == [] {
      assert sofar + rest == sofar;
      ValuesRepresented(s, sofar);
    } else {
      var d, next := rest[0], sofar + [rest[0]];
      assert sofar + rest == next + rest[1..];
      NotAbove(sofar, rest);
      RefusedWhen(s, sofar, d);
      PrefixKept(next, rest[1..]);
      if Refused(s, d).None? {
        AppliedRepresents(s, sofar, d);
        FoldMeans(Applied(s, d), next, rest[1..]);
      }
    }
  }

  lemma ValuesRepresented(s: Sofar, ds: seq<Definition>)
    requires Represents(s, ds)
    ensures ValuesMean(ds, s.resolved)
  {
  }

  lemma NotAbove(sofar: seq<Definition>, rest: seq<Definition>)
    requires InLayerOrder(sofar + rest) && rest != []
    ensures forall e | e in sofar :: e.layer <= rest[0].layer
  {
    var all := sofar + rest;
    forall e | e in sofar ensures e.layer <= rest[0].layer {
      var i :| 0 <= i < |sofar| && sofar[i] == e;
      assert all[i] == e && all[|sofar|] == rest[0];
    }
  }

  lemma PrefixKept(a: seq<Definition>, b: seq<Definition>)
    ensures NoneTwice(a + b) && PinsKept(a + b) ==> NoneTwice(a) && PinsKept(a)
  {
    assert forall d | d in a :: d in a + b;
    assert forall i | 0 <= i < |a| :: (a + b)[i] == a[i];
  }

  // -- what a conflict says -----------------------------------------------------------------------

  /** The two definitions a conflict names: an earlier and a later one of one layer, or a pinned one and one above it. */
  ghost predicate ConflictIn(ds: seq<Definition>, c: Conflict) {
    match c
    case DefinedTwice(name, layer, first, second) =>
      exists i, j | 0 <= i < j < |ds| ::
        && ds[i].variable.name == name == ds[j].variable.name && ds[i].layer == layer == ds[j].layer
        && ds[i].profile == first && ds[j].profile == second
    case Pinned(name, layer, profile, attempted, attemptedBy) =>
      exists d, e | d in ds && e in ds ::
        && d.variable.name == name == e.variable.name && !d.variable.overridable && d.layer == layer && d.profile == profile
        && e.layer == attempted && e.profile == attemptedBy && layer < attempted
  }

  /** What is remembered of the definitions so far names one of them. */
  ghost predicate Remembers(s: Sofar, ds: seq<Definition>) {
    && (forall d | d in ds :: (d.layer, d.variable.name) in s.claimed)
    && (forall layer, name | (layer, name) in s.claimed ::
          exists d | d in ds :: d.layer == layer && d.variable.name == name && d.profile == s.claimed[(layer, name)])
    && (forall name | name in s.pinned ::
          exists d | d in ds :: d.variable.name == name && !d.variable.overridable && (d.layer, d.profile) == s.pinned[name])
  }

  lemma RemembersMore(s: Sofar, ds: seq<Definition>, d: Definition)
    requires Remembers(s, ds) && Refused(s, d).None?
    ensures Remembers(Applied(s, d), ds + [d])
  {
    var all, next := ds + [d], Applied(s, d);
    assert forall e :: e in all <==> e in ds || e == d;
    forall layer, name | (layer, name) in next.claimed
      ensures exists e | e in all :: e.layer == layer && e.variable.name == name && e.profile == next.claimed[(layer, name)]
    {
      if (layer, name) == (d.layer, d.variable.name) {
        assert d in all;
      } else {
        var e :| e in ds && e.layer == layer && e.variable.name == name && e.profile == s.claimed[(layer, name)];
        assert e in all;
      }
    }
    forall name | name in next.pinned
      ensures exists e | e in all :: e.variable.name == name && !e.variable.overridable && (e.layer, e.profile) == next.pinned[name]
    {
      if name == d.variable.name && !d.variable.overridable {
        assert d in all;
      } else {
        var e :| e in ds && e.variable.name == name && !e.variable.overridable && (e.layer, e.profile) == s.pinned[name];
        assert e in all;
      }
    }
  }

  lemma RefusedNames(s: Sofar, ds: seq<Definition>, d: Definition, later: seq<Definition>)
    requires Remembers(s, ds) && Refused(s, d).Some? && forall e | e in ds :: e.layer <= d.layer
    ensures ConflictIn(ds + ([d] + later), Refused(s, d).value)
  {
    var all := ds + ([d] + later);
    assert all[|ds|] == d;
    if (d.layer, d.variable.name) in s.claimed {
      var e :| e in ds && e.layer == d.layer && e.variable.name == d.variable.name && e.profile == s.claimed[(d.layer, d.variable.name)];
      var i :| 0 <= i < |ds| && ds[i] == e;
      assert all[i] == e;
    } else {
      var name := d.variable.name;
      var e :| e in ds && e.variable.name == name && !e.variable.overridable && (e.layer, e.profile) == s.pinned[name];
      assert e in all && d in all && (e.layer, name) in s.claimed;
    }
  }

  lemma {:induction false} FoldNames(s: Sofar, sofar: seq<Definition>, rest: seq<Definition>)
    requires Remembers(s, sofar) && InLayerOrder(sofar + rest) && ApplyAll(s, rest).Err?
    ensures ConflictIn(sofar + rest, ApplyAll(s, rest).error)
    decreases |rest|
  {
    hide Remembers, Refused, Applied, ConflictIn, InLayerOrder;
    var d := rest[0];
    assert rest == [d] + rest[1..];
    NotAbove(sofar, rest);
    if Refused(s, d).Some? {
      RefusedNames(s, sofar, d, rest[1..]);
    } else {
      RemembersMore(s, sofar, d);
      assert sofar + [d] + rest[1..] == sofar + rest;
      FoldNames(Applied(s, d), sofar + [d], rest[1..]);
    }
  }

  lemma NothingRemembered()
    ensures Remembers(NOTHING, [])
  {
  }

  /** A conflict names two definitions that are there and do conflict, in the order they are applied. */
  lemma ConflictMeans(profiles: seq<Profile>)
    requires Resolve(profiles).Err?
    ensures ConflictIn(Definitions(ByLayer(profiles)), Resolve(profiles).error)
  {
    hide ByLayer, Definitions, ApplyAll, ConflictIn, InLayerOrder, Remembers;
    var ordered := ByLayer(profiles);
    ByLayerSorts(profiles, 0);
    SortedDefinitions(ordered);
    NothingRemembered();
    assert [] + Definitions(ordered) == Definitions(ordered);
    FoldNames(NOTHING, [], Definitions(ordered));
  }

  // -- any order -------------------------------------------------------------------------------

  lemma {:induction false} DefinitionsSum(a: seq<Profile>, b: seq<Profile>)
    ensures Definitions(a + b) == Definitions(a) + Definitions(b)
  {
    if a == [] {
      assert a + b == b;
    } else {
      assert (a + b)[1..] == a[1..] + b;
      DefinitionsSum(a[1..], b);
    }
  }

  lemma DefinitionsApart(profiles: seq<Profile>, k: nat)
    requires k < |profiles|
    ensures multiset(Definitions(profiles))
         == multiset(DefinitionsIn(profiles[k])) + multiset(Definitions(profiles[..k] + profiles[k + 1..]))
  {
    hide DefinitionsIn;
    var before, one, after := profiles[..k], [profiles[k]], profiles[k + 1..];
    DefinitionsSum(before, after);
    DefinitionsSum(before + one, after);
    DefinitionsSum(before, one);
    assert profiles == before + one + after;
    assert one[1..] == [];
    assert Definitions(one) == DefinitionsIn(profiles[k]) + [];
    assert DefinitionsIn(profiles[k]) + [] == DefinitionsIn(profiles[k]);
  }

  lemma {:induction false} DefinitionsPermute(a: seq<Profile>, b: seq<Profile>)
    requires multiset(a) == multiset(b)
    ensures multiset(Definitions(a)) == multiset(Definitions(b))
    decreases |a|
  {
    hide DefinitionsIn, Definitions;
    if a == [] {
      assert |multiset(b)| == 0;
      assert b == a;
    } else {
      var k := Matching(a, b);
      DefinitionsPermute(a[1..], b[..k] + b[k + 1..]);
      assert a[..0] + a[1..] == a[1..];
      DefinitionsApart(a, 0);
      DefinitionsApart(b, k);
    }
  }

  /** Where the first of one list is in another, and that what is left is the same. */
  lemma Matching(a: seq<Profile>, b: seq<Profile>) returns (k: nat)
    requires a != [] && multiset(a) == multiset(b)
    ensures k < |b| && b[k] == a[0] && multiset(a[1..]) == multiset(b[..k] + b[k + 1..])
  {
    assert a[0] in multiset(b);
    k :| 0 <= k < |b| && b[k] == a[0];
    TakeOne(b, k);
    TakeOne(a, 0);
    assert a[..0] + a[1..] == a[1..];
    Cancel(a[0], multiset(a[1..]), multiset(b[..k] + b[k + 1..]));
  }

  lemma Cancel<T>(x: T, m: multiset<T>, n: multiset<T>)
    requires multiset{x} + m == multiset{x} + n
    ensures m == n
  {
    assert m == multiset{x} + m - multiset{x};
    assert n == multiset{x} + n - multiset{x};
  }

  /** Taking one element out of a sequence takes one of its count. */
  lemma TakeOne<T>(s: seq<T>, k: nat)
    requires k < |s|
    ensures multiset(s) == multiset{s[k]} + multiset(s[..k] + s[k + 1..])
  {
    assert s == s[..k] + [s[k]] + s[k + 1..];
  }

  predicate OnlyOnce(ds: seq<Definition>) {
    && (forall d | d in ds :: multiset(ds)[d] == 1)
    && (forall d, e | d in ds && e in ds && d != e && d.variable.name == e.variable.name :: d.layer != e.layer)
  }

  lemma OnceWhenNotTwice(ds: seq<Definition>)
    requires NoneTwice(ds)
    ensures OnlyOnce(ds)
  {
    forall d | d in ds ensures multiset(ds)[d] == 1 {
      var i :| 0 <= i < |ds| && ds[i] == d;
      TakeOne(ds, i);
      if d in ds[..i] + ds[i + 1..] {
        var j :| 0 <= j < |ds| && j != i && ds[j] == d;
        assert false;
      }
    }
    forall d, e | d in ds && e in ds && d != e && d.variable.name == e.variable.name ensures d.layer != e.layer {
      var i :| 0 <= i < |ds| && ds[i] == d;
      var j :| 0 <= j < |ds| && ds[j] == e;
    }
  }

  lemma TwiceCounts(ds: seq<Definition>, i: nat, j: nat)
    requires i < j < |ds| && ds[i] == ds[j]
    ensures multiset(ds)[ds[i]] >= 2
  {
    TakeOne(ds, i);
    assert (ds[..i] + ds[i + 1..])[j - 1] == ds[i];
  }

  lemma NotTwiceWhenOnce(ds: seq<Definition>)
    requires OnlyOnce(ds)
    ensures NoneTwice(ds)
  {
    forall i, j | 0 <= i < j < |ds| && ds[i].variable.name == ds[j].variable.name ensures ds[i].layer != ds[j].layer {
      assert ds[i] in ds && ds[j] in ds;
      if ds[i] == ds[j] {
        TwiceCounts(ds, i, j);
        assert false;
      }
    }
  }

  lemma SameCounts(a: seq<Definition>, b: seq<Definition>)
    requires multiset(a) == multiset(b) && NoneTwice(a)
    ensures NoneTwice(b)
  {
    hide NoneTwice;
    OnceWhenNotTwice(a);
    forall d ensures d in a <==> d in b {
      assert d in multiset(a) <==> d in multiset(b);
    }
    assert OnlyOnce(b);
    NotTwiceWhenOnce(b);
  }

  /** Whether definitions clash, and what they mean, does not depend on their order. */
  lemma SameMeaning(a: seq<Definition>, b: seq<Definition>, values: map<string, Resolved>)
    requires multiset(a) == multiset(b)
    ensures NoneTwice(a) <==> NoneTwice(b)
    ensures PinsKept(a) <==> PinsKept(b)
    ensures ValuesMean(a, values) <==> ValuesMean(b, values)
  {
    hide NoneTwice, PinsKept, ValuesMean;
    forall d ensures d in a <==> d in b {
      assert d in multiset(a) <==> d in multiset(b);
    }
    if NoneTwice(a) {
      SameCounts(a, b);
    }
    if NoneTwice(b) {
      SameCounts(b, a);
    }
    MeansByMembers(a, b, values);
    MeansByMembers(b, a, values);
  }

  lemma MeansByMembers(a: seq<Definition>, b: seq<Definition>, values: map<string, Resolved>)
    requires forall d :: d in a <==> d in b
    ensures PinsKept(a) ==> PinsKept(b)
    ensures ValuesMean(a, values) ==> ValuesMean(b, values)
  {
    if ValuesMean(a, values) {
      forall name | name in values ensures Means(b, name, values[name]) {
        assert Means(a, name, values[name]);
      }
    }
  }

  /** A key has one meaning. */
  lemma OneMeaning(ds: seq<Definition>, name: string, a: Resolved, b: Resolved)
    requires NoneTwice(ds) && Means(ds, name, a) && Means(ds, name, b)
    ensures a == b
  {
    var v :| v in ds && v.variable.name == name && Gives(v, a) && forall e | e in ds && e.variable.name == name :: e.layer <= v.layer;
    var w :| w in ds && w.variable.name == name && Gives(w, b) && forall e | e in ds && e.variable.name == name :: e.layer <= w.layer;
    var i :| 0 <= i < |ds| && ds[i] == v;
    var j :| 0 <= j < |ds| && ds[j] == w;
    assert i == j;
    assert forall o :: o in a.overridden <==> o in b.overridden;
    SameAscending(a.overridden, b.overridden);
  }

  lemma EmptyHasNone(b: seq<(int, string)>)
    ensures (forall o :: o !in b) ==> b == []
  {
    if b != [] {
      assert b[0] in b;
    }
  }

  /** A strictly ascending list is settled by what is in it. */
  lemma {:induction false} SameAscending(a: seq<(int, string)>, b: seq<(int, string)>)
    requires forall i, j | 0 <= i < j < |a| :: a[i].0 < a[j].0
    requires forall i, j | 0 <= i < j < |b| :: b[i].0 < b[j].0
    requires forall o :: o in a <==> o in b
    ensures a == b
    decreases |a|
  {
    if a == [] {
      EmptyHasNone(b);
    } else {
      assert a[0] in a && b != [];
      var i :| 0 <= i < |b| && b[i] == a[0];
      assert b[0] in b;
      var j :| 0 <= j < |a| && a[j] == b[0];
      assert a[0] == b[0];
      forall o ensures o in a[1..] <==> o in b[1..] {
        assert o in a <==> o == a[0] || o in a[1..];
        assert o in b <==> o == b[0] || o in b[1..];
      }
      SameAscending(a[1..], b[1..]);
    }
  }

  lemma SameValues(ds: seq<Definition>, a: map<string, Resolved>, b: map<string, Resolved>)
    requires NoneTwice(ds) && ValuesMean(ds, a) && ValuesMean(ds, b)
    ensures a == b
  {
    hide Means, NoneTwice;
    forall name | name in a ensures name in b && a[name] == b[name] {
      OneMeaning(ds, name, a[name], b[name]);
    }
    assert a.Keys == b.Keys;
  }

  lemma {:induction false} SortedDefinitions(profiles: seq<Profile>)
    requires Ascending(profiles)
    ensures InLayerOrder(Definitions(profiles))
    ensures profiles != [] ==> forall d | d in Definitions(profiles) :: profiles[0].layer <= d.layer
  {
    if profiles != [] {
      SortedDefinitions(profiles[1..]);
      var first, rest := DefinitionsIn(profiles[0]), Definitions(profiles[1..]);
      forall d | d in rest ensures profiles[0].layer <= d.layer {
        assert profiles[1..] != [];
      }
      forall i, j | 0 <= i < j < |first + rest| ensures (first + rest)[i].layer <= (first + rest)[j].layer {
        if j >= |first| {
          assert (first + rest)[j] in rest;
        }
      }
    }
  }

  // -- the main results ------------------------------------------------------------------------

  /** Resolving succeeds exactly when no key is defined twice at a layer or above a pin, and then means what it should. */
  lemma ResolvesTo(profiles: seq<Profile>)
    ensures Resolve(profiles).Ok? ==> |Resolve(profiles).value.applied| == |profiles| == |ByLayer(profiles)|
    ensures Resolve(profiles).Ok? ==> forall i | 0 <= i < |profiles| :: Resolve(profiles).value.applied[i] == ByLayer(profiles)[i].name
    ensures Resolve(profiles).Ok? <==> NoneTwice(Definitions(profiles)) && PinsKept(Definitions(profiles))
    ensures Resolve(profiles).Ok? ==> ValuesMean(Definitions(profiles), Resolve(profiles).value.values)
  {
    hide ByLayer, Definitions, ApplyAll, NoneTwice, PinsKept, ValuesMean, InLayerOrder, Ascending;
    var ordered := ByLayer(profiles);
    ByLayerSorts(profiles, 0);
    SortedDefinitions(ordered);
    var ds := Definitions(ordered);
    assert |multiset(ordered)| == |multiset(profiles)|;
    DefinitionsPermute(ordered, profiles);
    NothingRepresents();
    assert [] + ds == ds;
    FoldMeans(NOTHING, [], ds);
    SameMeaning(ds, Definitions(profiles), if ApplyAll(NOTHING, ds).Ok? then ApplyAll(NOTHING, ds).value.resolved else map[]);
  }

  lemma NothingRepresents()
    ensures Represents(NOTHING, []) && NoneTwice([]) && PinsKept([])
  {
  }

  /** The values are the same whatever order the profiles come in, and so is whether there are any. */
  lemma OrderDoesNotMatter(a: seq<Profile>, b: seq<Profile>)
    requires multiset(a) == multiset(b)
    ensures Resolve(a).Ok? <==> Resolve(b).Ok?
    ensures Resolve(a).Ok? ==> Resolve(a).value.values == Resolve(b).value.values
  {
    hide Resolve, Definitions, NoneTwice, PinsKept, ValuesMean;
    ResolvesTo(a);
    ResolvesTo(b);
    DefinitionsPermute(a, b);
    SameMeaning(Definitions(a), Definitions(b), if Resolve(a).Ok? then Resolve(a).value.values else map[]);
    if Resolve(a).Ok? {
      SameValues(Definitions(b), Resolve(a).value.values, Resolve(b).value.values);
    }
  }
}
