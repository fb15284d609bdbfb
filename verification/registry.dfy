/**
 * The scheme registry: loading the configured stores, mapping every scheme a
 * store reports to that store, and looking a store up by scheme or by URI.
 * The process-wide scheme map is passed in and returned explicitly.
 */
module Registry {
  import opened Wrappers
  import opened Errors
  import Text

  /** A loaded store instance: its driver name, the schemes it reports and its location class. */
  datatype Store = Store(name: string, schemes: set<string>, locationClass: string)

  /** What the scheme map holds for one scheme. */
  datatype Entry = Entry(store: Store, locationClass: string)

  type SchemeMap = map<string, Entry>

  /** The outcome of loading one configured store name. */
  datatype Loaded = Loaded(store: Store) | BadConfiguration

  /** The driver loader, a function of the store name. */
  type Loader = string -> Loaded

  /** The registry after a population pass, with its count or the error that stopped it. */
  datatype Populated = Populated(registry: SchemeMap, count: Result<nat, Error>)

  /** The distinct names of `xs`, each at its first occurrence. */
  function Distinct(xs: seq<string>): (ys: seq<string>)
    ensures forall x :: x in ys <==> x in xs
    ensures forall i, j :: 0 <= i < j < |ys| ==> ys[i] != ys[j]
    ensures |ys| <= |xs|
  {
    if |xs| == 0 then []
    else
      var d := Distinct(xs[..|xs| - 1]);
      assert xs == xs[..|xs| - 1] + [xs[|xs| - 1]];
      if xs[|xs| - 1] in d then d else d + [xs[|xs| - 1]]
  }

  /** The entry registered for every scheme of `st`. */
  function EntryOf(st: Store): Entry {
    Entry(st, st.locationClass)
  }

  /** `location.register_scheme_map` for one store: later registrations overwrite earlier ones. */
  function Register(reg: SchemeMap, st: Store): (r: SchemeMap)
    ensures r.Keys == reg.Keys + st.schemes
    ensures forall s :: s in st.schemes ==> r[s] == EntryOf(st)
    ensures forall s :: s in reg && s !in st.schemes ==> r[s] == reg[s]
  {
    reg + map s | s in st.schemes :: EntryOf(st)
  }

  /** The loop of `create_stores` over names already made distinct. */
  function Populate(reg: SchemeMap, names: seq<string>, load: Loader): (p: Populated)
    decreases |names|
  {
    if |names| == 0 then Populated(reg, Ok(0))
    else
      match load(names[0])
      case BadConfiguration => Populate(reg, names[1..], load)
      case Loaded(st) =>
        if st.schemes == {} then Populated(reg, Err(BackendException(NoSchemes(names[0]))))
        else
          var rest := Populate(Register(reg, st), names[1..], load);
          Populated(rest.registry, if rest.count.Ok? then Ok(rest.count.value + 1) else rest.count)
  }

  /** The stores the loader produces for `names`, in order; names that fail to load are skipped. */
  function LoadedStores(names: seq<string>, load: Loader): seq<Store>
    decreases |names|
  {
    if |names| == 0 then []
    else
      (match load(names[0]) case Loaded(st) => [st] case BadConfiguration => [])
        + LoadedStores(names[1..], load)
  }

  /** Name `n` loads a store that claims scheme `s`. */
  predicate Claims(load: Loader, n: string, s: string) {
    load(n).Loaded? && s in load(n).store.schemes
  }

  /**
   * Population succeeds exactly when no loaded store reports an empty scheme
   * set; it then counts the loaded stores. Otherwise it fails with a
   * `BackendException` naming the first such store.
   */
  lemma {:induction false} PopulateCounts(reg: SchemeMap, names: seq<string>, load: Loader)
    ensures var p := Populate(reg, names, load);
      var sts := LoadedStores(names, load);
      && (p.count.Ok? <==> forall i :: 0 <= i < |sts| ==> sts[i].schemes != {})
      && (p.count.Ok? ==> p.count.value == |sts|)
      && (p.count.Err? ==> exists i :: (0 <= i < |names| && load(names[i]).Loaded?
            && load(names[i]).store.schemes == {}
            && p.count.error == BackendException(NoSchemes(names[i]))))
    decreases |names|
  {
    if |names| > 0 {
      match load(names[0])
      case BadConfiguration =>
        PopulateCounts(reg, names[1..], load);
        assert LoadedStores(names, load) == LoadedStores(names[1..], load);
        var p := Populate(reg, names[1..], load);
        if p.count.Err? {
          var i :| 0 <= i < |names[1..]| && load(names[1..][i]).Loaded?
            && load(names[1..][i]).store.schemes == {}
            && p.count.error == BackendException(NoSchemes(names[1..][i]));
          assert names[1..][i] == names[i + 1];
        }
      case Loaded(st) =>
        if st.schemes != {} {
          PopulateCounts(Register(reg, st), names[1..], load);
          var sts := LoadedStores(names, load);
          var rest := LoadedStores(names[1..], load);
          assert sts == [st] + rest;
          assert forall i :: 1 <= i < |sts| ==> sts[i] == rest[i - 1];
          var p := Populate(Register(reg, st), names[1..], load);
          if p.count.Err? {
            var k :| 0 <= k < |rest| && rest[k].schemes == {};
            assert sts[k + 1] == rest[k];
            var i :| 0 <= i < |names[1..]| && load(names[1..][i]).Loaded?
              && load(names[1..][i]).store.schemes == {}
              && p.count.error == BackendException(NoSchemes(names[1..][i]));
            assert names[1..][i] == names[i + 1];
          }
        } else {
          assert LoadedStores(names, load)[0] == st;
        }
    }
  }

  /** One successful step of the population loop, with the rest of the names still to go. */
  lemma PopulateStep(reg: SchemeMap, names: seq<string>, load: Loader)
    requires |names| > 0
    requires Populate(reg, names, load).count.Ok?
    ensures load(names[0]).Loaded? ==>
      && Populate(Register(reg, load(names[0]).store), names[1..], load).count.Ok?
      && Populate(reg, names, load).registry
         == Populate(Register(reg, load(names[0]).store), names[1..], load).registry
    ensures load(names[0]).BadConfiguration? ==>
      Populate(reg, names, load) == Populate(reg, names[1..], load)
  {
  }

  /** A successful pass leaves the entry of a scheme no store in `names` claims as it was. */
  lemma {:induction false} PopulateKeepsUnclaimed(reg: SchemeMap, names: seq<string>, load: Loader, s: string)
    requires Populate(reg, names, load).count.Ok?
    requires forall i :: 0 <= i < |names| ==> !Claims(load, names[i], s)
    ensures var r := Populate(reg, names, load).registry;
      (s in r <==> s in reg) && (s in reg ==> r[s] == reg[s])
    decreases |names|
  {
    if |names| > 0 {
      PopulateStep(reg, names, load);
      assert !Claims(load, names[0], s);
      assert forall i :: 0 <= i < |names[1..]| ==> names[1..][i] == names[i + 1];
      if load(names[0]).Loaded? {
        PopulateKeepsUnclaimed(Register(reg, load(names[0]).store), names[1..], load, s);
      } else {
        PopulateKeepsUnclaimed(reg, names[1..], load, s);
      }
    }
  }

  /**
   * After a successful pass, a scheme maps to the LAST store in `names` that
   * claims it: a later store claiming the same scheme overwrites the entry.
   */
  lemma {:induction false} PopulateLastClaimWins(reg: SchemeMap, names: seq<string>, load: Loader, s: string, i: nat)
    requires Populate(reg, names, load).count.Ok?
    requires i < |names| && Claims(load, names[i], s)
    requires forall j :: i < j < |names| ==> !Claims(load, names[j], s)
    ensures var r := Populate(reg, names, load).registry;
      s in r && r[s] == EntryOf(load(names[i]).store)
    decreases |names|
  {
    PopulateStep(reg, names, load);
    var tail := names[1..];
    assert forall j :: 0 <= j < |tail| ==> tail[j] == names[j + 1];
    var reg' := if load(names[0]).Loaded? then Register(reg, load(names[0]).store) else reg;
    if i == 0 {
      PopulateKeepsUnclaimed(reg', tail, load, s);
    } else {
      PopulateLastClaimWins(reg', tail, load, s, i - 1);
    }
  }

  /**
   * `create_stores`: every distinct configured name is loaded once; the result
   * carries the registry and the number of stores registered.
   */
  function CreateStores(reg: SchemeMap, configured: seq<string>, load: Loader): (p: Populated)
    ensures p.count.Ok? ==> p.count.value == |LoadedStores(Distinct(configured), load)|
    ensures p.count.Ok? ==> p.count.value <= |Distinct(configured)|
    ensures p.count.Ok? <==> forall n :: n in configured && load(n).Loaded? ==> load(n).store.schemes != {}
    ensures p.count.Err? ==> exists n :: n in configured && load(n).Loaded? && load(n).store.schemes == {}
                              && p.count.error == BackendException(NoSchemes(n))
  {
    var names := Distinct(configured);
    PopulateCounts(reg, names, load);
    LoadedStoresBound(names, load);
    LoadedStoresMembers(names, load);
    Populate(reg, names, load)
  }

  lemma {:induction false} LoadedStoresBound(names: seq<string>, load: Loader)
    ensures |LoadedStores(names, load)| <= |names|
    decreases |names|
  {
    if |names| > 0 {
      LoadedStoresBound(names[1..], load);
    }
  }

  /** The loaded stores are exactly the stores of the names that load. */
  lemma {:induction false} LoadedStoresMembers(names: seq<string>, load: Loader)
    ensures forall st :: st in LoadedStores(names, load) <==>
      exists n :: n in names && load(n) == Loaded(st)
    decreases |names|
  {
    if |names| > 0 {
      LoadedStoresMembers(names[1..], load);
      assert forall n :: n in names <==> n == names[0] || n in names[1..];
    }
  }

  /** `get_known_schemes`. */
  function KnownSchemes(reg: SchemeMap): set<string> {
    reg.Keys
  }

  /**
   * After a successful `create_stores`, the known schemes are the earlier ones
   * plus every scheme some configured store reports.
   */
  lemma CreateStoresKnownSchemes(reg: SchemeMap, configured: seq<string>, load: Loader)
    requires CreateStores(reg, configured, load).count.Ok?
    ensures forall s :: s in KnownSchemes(CreateStores(reg, configured, load).registry) <==>
      s in reg || exists n :: n in configured && Claims(load, n, s)
  {
    var names := Distinct(configured);
    var r := CreateStores(reg, configured, load).registry;
    forall s
      ensures s in r <==> s in reg || exists n :: n in configured && Claims(load, n, s)
    {
      if exists n :: n in configured && Claims(load, n, s) {
        var n :| n in configured && Claims(load, n, s);
        LastClaimExists(names, load, s, n);
        var i :| 0 <= i < |names| && Claims(load, names[i], s)
          && forall j :: i < j < |names| ==> !Claims(load, names[j], s);
        PopulateLastClaimWins(reg, names, load, s, i);
      } else {
        PopulateKeepsUnclaimed(reg, names, load, s);
      }
    }
  }

  /** Some name in `names` is the last one to claim `s`, whenever any does. */
  lemma LastClaimExists(names: seq<string>, load: Loader, s: string, n: string)
    requires n in names && Claims(load, n, s)
    ensures exists i :: (0 <= i < |names| && Claims(load, names[i], s)
      && forall j :: i < j < |names| ==> !Claims(load, names[j], s))
  {
    var i :| 0 <= i < |names| && names[i] == n;
    while exists j :: i < j < |names| && Claims(load, names[j], s)
      invariant 0 <= i < |names| && Claims(load, names[i], s)
      decreases |names| - i
    {
      var k :| i < k < |names| && Claims(load, names[k], s);
      i := k;
    }
  }

  /** `get_store_from_scheme`. */
  function StoreFromScheme(reg: SchemeMap, scheme: string): (r: Result<Store, Error>)
    ensures r.Err? <==> scheme !in reg
    ensures r.Err? ==> r.error == UnknownScheme(scheme)
    ensures r.Ok? ==> r.value == reg[scheme].store
  {
    if scheme !in reg then Err(UnknownScheme(scheme)) else Ok(reg[scheme].store)
  }

  /** The scheme `get_store_from_uri` extracts: `uri[0:uri.find('/') - 1]`. */
  function SchemeOfUri(uri: string): string {
    Text.Slice(uri, 0, Text.Find(uri, '/') - 1)
  }

  /** `get_store_from_uri`. */
  function StoreFromUri(reg: SchemeMap, uri: string): Result<Store, Error> {
    StoreFromScheme(reg, SchemeOfUri(uri))
  }

  /** For a URI `s:/rest` where `s` holds no `/`, exactly `s` is looked up. */
  lemma SchemeOfSchemeUri(reg: SchemeMap, s: string, rest: string)
    requires '/' !in s
    ensures SchemeOfUri(s + ":/" + rest) == s
    ensures StoreFromUri(reg, s + ":/" + rest) == StoreFromScheme(reg, s)
  {
    var uri := s + ":/" + rest;
    assert uri[|s| + 1] == '/';
    assert uri[..|s| + 1] == s + ":";
    assert Text.Find(uri, '/') == |s| + 1;
    assert uri[0..|s|] == s;
  }

  /** A URI with no `/` at all loses its last two characters. */
  lemma SchemeOfUriWithoutSlash(uri: string)
    requires '/' !in uri
    ensures SchemeOfUri(uri) == if |uri| < 2 then [] else uri[..|uri| - 2]
  {
  }

  /** A lookup through a registry built by a successful `create_stores` finds the last claimant. */
  lemma CreateStoresLookup(reg: SchemeMap, configured: seq<string>, load: Loader, s: string, i: nat)
    requires CreateStores(reg, configured, load).count.Ok?
    requires var names := Distinct(configured);
      i < |names| && Claims(load, names[i], s)
      && forall j :: i < j < |names| ==> !Claims(load, names[j], s)
    ensures StoreFromScheme(CreateStores(reg, configured, load).registry, s)
         == Ok(load(Distinct(configured)[i]).store)
  {
    PopulateLastClaimWins(reg, Distinct(configured), load, s, i);
  }
}
