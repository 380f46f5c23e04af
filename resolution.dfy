/**
 * The label resolver (`_initialize_oak` and `get_ontology_label`) as a pure
 * step over the resolver's state. The evaluator class in module Evaluator
 * holds this state in fields and performs the same step in place.
 */
module Resolution {
  import opened Wrappers
  import Normalizer

  /** The adapter locator that selects one adapter per CURIE prefix. */
  const DynamicAdapter: string := "sqlite:obo:"
  /** The fallback adapter of dynamic mode. */
  const MergedAdapter: string := "sqlite:obo:merged"
  /** The key of the single adapter used outside dynamic mode. */
  const DefaultKey: string := "_default"

  /** `ValidationConfig`. */
  datatype Config = Config(adapterString: string, strictMode: bool, cacheLabels: bool)

  /**
   * The ontology library as an oracle: whether it is installed, whether
   * `get_adapter(s)` succeeds, and what `adapter.label(curie)` returns for the
   * adapter built from `s` (`None` both for "no label" and for a raised exception).
   */
  datatype Backend = Backend(hasOak: bool, canOpen: string -> bool, lookup: (string, string) -> Option<string>)
  {
    /** `get_adapter(s)` returns an adapter (it raises when the library is missing). */
    predicate Opens(s: string) {
      hasOak && canOpen(s)
    }
  }

  /**
   * The evaluator's mutable state: `_label_cache` (absent when caching is off),
   * `_per_prefix_adapters` (an adapter is named by the locator it was built
   * from; a `None` entry is a tombstone), and two logs of backend calls: the
   * table keys for which adapter construction was attempted, and the CURIEs
   * passed to `adapter.label`.
   */
  datatype ResolverState = ResolverState(
    cache: Option<map<string, Option<string>>>,
    adapters: map<string, Option<string>>,
    constructions: seq<string>,
    lookups: seq<string>)

  /** The result of one `get_ontology_label` call: the label and the state after it. */
  datatype Step = Step(termLabel: Option<string>, state: ResolverState)

  predicate IsDynamic(cfg: Config) {
    cfg.adapterString == DynamicAdapter
  }

  /** The part of `s` before its first `:` (all of `s` when it has none). */
  function BeforeColon(s: string): (r: string)
    ensures |r| <= |s| && r == s[..|r|]
    ensures ':' !in r
    ensures |r| < |s| ==> s[|r|] == ':'
  {
    if s == [] || s[0] == ':' then [] else [s[0]] + BeforeColon(s[1..])
  }

  /** `curie.split(":")[0].lower() if ":" in curie else None`. */
  function Prefix(curie: string): (r: Option<string>)
    ensures r.Some? <==> ':' in curie
    ensures r.Some? ==> var n := |r.value|;
      && n < |curie| && curie[n] == ':' && ':' !in curie[..n]
  {
    if ':' in curie then Some(Normalizer.Lower(BeforeColon(curie))) else None
  }

  /** The prefix is the CURIE's text before its first colon, lower-cased character by character. */
  lemma PrefixChars(curie: string)
    requires ':' in curie
    ensures var p := Prefix(curie).value;
      forall i :: 0 <= i < |p| ==> p[i] == Normalizer.LowerChar(curie[i])
  {
    var b := BeforeColon(curie);
    assert b == curie[..|b|];
  }

  /** The state right after construction: an empty cache when caching is on, and `_initialize_oak`'s table. */
  function Initial(cfg: Config, be: Backend): (st: ResolverState)
    ensures st.cache.Some? <==> cfg.cacheLabels
    ensures st.cache.Some? ==> st.cache.value == map[]
    ensures IsDynamic(cfg) || !be.hasOak ==> st.adapters == map[] && st.constructions == []
    ensures !IsDynamic(cfg) && be.hasOak ==>
      st.constructions == [DefaultKey]
      && (st.adapters == if be.Opens(cfg.adapterString) then map[DefaultKey := Some(cfg.adapterString)] else map[])
    ensures st.lookups == []
    ensures WellFormed(cfg, be, st)
  {
    var cache := if cfg.cacheLabels then Some(map[]) else None;
    if !be.hasOak || IsDynamic(cfg) then
      ResolverState(cache, map[], [], [])
    else if be.Opens(cfg.adapterString) then
      ResolverState(cache, map[DefaultKey := Some(cfg.adapterString)], [DefaultKey], [])
    else
      ResolverState(cache, map[], [DefaultKey], [])
  }

  /** Dynamic mode's table entry for prefix `p`: the prefix's own database, else the merged one, else a tombstone. */
  function OpenForPrefix(be: Backend, p: string): (a: Option<string>)
    ensures a.Some? ==> be.Opens(a.value)
    ensures a.None? <==> !be.Opens(DynamicAdapter + p) && !be.Opens(MergedAdapter)
    ensures be.Opens(DynamicAdapter + p) ==> a == Some(DynamicAdapter + p)
  {
    if be.Opens(DynamicAdapter + p) then Some(DynamicAdapter + p)
    else if be.Opens(MergedAdapter) then Some(MergedAdapter)
    else None
  }

  /** The CURIE has a prefix that selects a per-prefix adapter (`if ... and prefix:`). */
  predicate UsesPrefix(cfg: Config, curie: string) {
    IsDynamic(cfg) && Prefix(curie).Some? && Prefix(curie).value != ""
  }

  /**
   * The invariant every reachable state keeps: the cache is present exactly when
   * caching is on; outside dynamic mode only `'_default'` is ever a key; in
   * dynamic mode each entry is the prefix's own database, the merged one or a
   * tombstone left after both failed; every stored adapter was built
   * successfully; and a cached label of a CURIE whose prefix is tombstoned is `None`.
   */
  predicate WellFormed(cfg: Config, be: Backend, st: ResolverState) {
    && (st.cache.Some? <==> cfg.cacheLabels)
    && (!IsDynamic(cfg) ==> st.adapters.Keys <= {DefaultKey})
    && (forall k :: k in st.adapters && st.adapters[k].Some? ==> be.Opens(st.adapters[k].value))
    && (IsDynamic(cfg) ==> forall k :: k in st.adapters ==> st.adapters[k] == OpenForPrefix(be, k))
    && (st.cache.Some? ==> forall c :: c in st.cache.value && UsesPrefix(cfg, c) ==>
          Prefix(c).value in st.adapters && (st.adapters[Prefix(c).value].None? ==> st.cache.value[c].None?))
  }

  /** The table and the construction log after selecting the adapter for `curie`, and the adapter selected. */
  function SelectAdapter(cfg: Config, be: Backend, st: ResolverState, curie: string)
    : (r: (Option<string>, map<string, Option<string>>, seq<string>))
    ensures UsesPrefix(cfg, curie) ==> var p := Prefix(curie).value;
      && p in r.1 && r.0 == r.1[p]
      && (p in st.adapters ==> r.1 == st.adapters && r.2 == st.constructions)
      && (p !in st.adapters ==> r.1 == st.adapters[p := OpenForPrefix(be, p)] && r.2 == st.constructions + [p])
    ensures !UsesPrefix(cfg, curie) ==>
      && r.1 == st.adapters && r.2 == st.constructions
      && r.0 == (if DefaultKey in st.adapters then st.adapters[DefaultKey] else None)
  {
    if UsesPrefix(cfg, curie) then
      var p := Prefix(curie).value;
      if p in st.adapters then (st.adapters[p], st.adapters, st.constructions)
      else
        var entry := OpenForPrefix(be, p);
        (entry, st.adapters[p := entry], st.constructions + [p])
    else
      (if DefaultKey in st.adapters then st.adapters[DefaultKey] else None, st.adapters, st.constructions)
  }

  /** `get_ontology_label(curie)`. */
  function Resolve(cfg: Config, be: Backend, st: ResolverState, curie: string): (r: Step)
    // a cache hit returns the cached value, `None` included, and changes nothing
    ensures st.cache.Some? && curie in st.cache.value ==> r.termLabel == st.cache.value[curie] && r.state == st
    // afterwards the cache holds the returned label, and nothing else in it changed
    ensures st.cache.Some? ==> r.state.cache == Some(st.cache.value[curie := r.termLabel])
    ensures st.cache.None? ==> r.state.cache.None?
    // table entries are never replaced; at most the CURIE's own prefix is added
    ensures st.adapters.Keys <= r.state.adapters.Keys
    ensures forall k :: k in st.adapters ==> r.state.adapters[k] == st.adapters[k]
    ensures forall k :: k in r.state.adapters && k !in st.adapters ==> UsesPrefix(cfg, curie) && k == Prefix(curie).value
    // in dynamic mode a non-empty prefix always ends up in the table, built at most once
    ensures UsesPrefix(cfg, curie) && WellFormed(cfg, be, st) ==> Prefix(curie).value in r.state.adapters
    ensures r.state.constructions == st.constructions
         || (UsesPrefix(cfg, curie) && Prefix(curie).value !in st.adapters
             && r.state.constructions == st.constructions + [Prefix(curie).value])
    // the backend is asked for at most this one label
    ensures r.state.lookups == st.lookups || r.state.lookups == st.lookups + [curie]
    ensures r.termLabel.Some? && !(st.cache.Some? && curie in st.cache.value) ==> r.state.lookups == st.lookups + [curie]
    // a tombstoned prefix, or a CURIE that falls to a missing '_default', yields None
    ensures (&& UsesPrefix(cfg, curie) && Prefix(curie).value in st.adapters
             && st.adapters[Prefix(curie).value].None? && WellFormed(cfg, be, st))
            ==> r.termLabel.None?
    ensures (!UsesPrefix(cfg, curie) && DefaultKey !in st.adapters && !(st.cache.Some? && curie in st.cache.value))
            ==> r.termLabel.None?
    ensures WellFormed(cfg, be, st) ==> WellFormed(cfg, be, r.state)
    // on a miss, the label is the one the selected adapter's lookup returns: in dynamic
    // mode the prefix's own database, else the merged one, else none; otherwise '_default'
    ensures (&& !(st.cache.Some? && curie in st.cache.value) && UsesPrefix(cfg, curie)
             && WellFormed(cfg, be, st))
            ==> var a := OpenForPrefix(be, Prefix(curie).value);
                r.termLabel == (if a.Some? then be.lookup(a.value, curie) else None)
    ensures (!(st.cache.Some? && curie in st.cache.value) && !UsesPrefix(cfg, curie))
            ==> r.termLabel == (if DefaultKey in st.adapters && st.adapters[DefaultKey].Some?
                                then be.lookup(st.adapters[DefaultKey].value, curie) else None)
    // on a miss in dynamic mode, a prefix with a database is asked for the label
    ensures (&& !(st.cache.Some? && curie in st.cache.value) && UsesPrefix(cfg, curie)
             && WellFormed(cfg, be, st) && OpenForPrefix(be, Prefix(curie).value).Some?)
            ==> r.state.lookups == st.lookups + [curie]
  {
    if st.cache.Some? && curie in st.cache.value then
      assert st.cache.value[curie := st.cache.value[curie]] == st.cache.value;
      Step(st.cache.value[curie], st)
    else
      var (adapter, adapters, constructions) := SelectAdapter(cfg, be, st, curie);
      var termLabel := if adapter.Some? then be.lookup(adapter.value, curie) else None;
      var lookups := if adapter.Some? then st.lookups + [curie] else st.lookups;
      var cache := if st.cache.Some? then Some(st.cache.value[curie := termLabel]) else None;
      Step(termLabel, ResolverState(cache, adapters, constructions, lookups))
  }

  /** The labels and the final state of successive `get_ontology_label` calls. */
  datatype Run = Run(labels: seq<Option<string>>, state: ResolverState)

  /** `get_ontology_label` called on each of `curies` in turn, each call seeing the state the previous one left. */
  function ResolveMany(cfg: Config, be: Backend, st: ResolverState, curies: seq<string>): (r: Run)
    ensures |r.labels| == |curies|
    ensures st.cache.Some? <==> r.state.cache.Some?
    ensures st.cache.Some? ==> st.cache.value.Keys <= r.state.cache.value.Keys
    ensures st.adapters.Keys <= r.state.adapters.Keys
    ensures forall k :: k in st.adapters ==> r.state.adapters[k] == st.adapters[k]
    ensures WellFormed(cfg, be, st) ==> WellFormed(cfg, be, r.state)
    ensures st.cache.Some? ==> r.state.cache.value.Keys == st.cache.value.Keys + set c | c in curies
    decreases |curies|
  {
    if curies == [] then Run([], st)
    else
      var prev := ResolveMany(cfg, be, st, curies[..|curies| - 1]);
      var step := Resolve(cfg, be, prev.state, curies[|curies| - 1]);
      Run(prev.labels + [step.termLabel], step.state)
  }

  /** Resolving `a + b` is resolving `a`, then `b` from where `a` left off. */
  lemma {:induction false} ResolveManyAppend(cfg: Config, be: Backend, st: ResolverState, a: seq<string>, b: seq<string>)
    ensures var mid := ResolveMany(cfg, be, st, a);
      ResolveMany(cfg, be, st, a + b)
      == Run(mid.labels + ResolveMany(cfg, be, mid.state, b).labels, ResolveMany(cfg, be, mid.state, b).state)
    decreases |b|
  {
    if b == [] {
      assert a + b == a;
    } else {
      var b' := b[..|b| - 1];
      var c := b[|b| - 1];
      assert (a + b)[..|a + b| - 1] == a + b';
      assert (a + b)[|a + b| - 1] == c;
      ResolveManyAppend(cfg, be, st, a, b');
      var mid := ResolveMany(cfg, be, st, a);
      var left := ResolveMany(cfg, be, st, a + b');
      var right := ResolveMany(cfg, be, mid.state, b');
      assert left == Run(mid.labels + right.labels, right.state);
      var step := Resolve(cfg, be, right.state, c);
      assert ResolveMany(cfg, be, st, a + b) == Run(left.labels + [step.termLabel], step.state);
      assert ResolveMany(cfg, be, mid.state, b) == Run(right.labels + [step.termLabel], step.state);
      assert left.labels + [step.termLabel] == mid.labels + (right.labels + [step.termLabel]);
    }
  }

  /**
   * With caching on, the backend is asked for a CURIE's label at most once over
   * any sequence of calls, and not at all when it was cached already.
   */
  lemma {:induction false} CachedCurieLookedUpOnce(cfg: Config, be: Backend, st: ResolverState, curies: seq<string>, c: string)
    requires st.cache.Some?
    ensures var end := ResolveMany(cfg, be, st, curies).state;
      && multiset(end.lookups)[c] <= multiset(st.lookups)[c] + (if c in st.cache.value then 0 else 1)
      && (c !in end.cache.value ==> multiset(end.lookups)[c] == multiset(st.lookups)[c])
    decreases |curies|
  {
    if curies != [] {
      var init := curies[..|curies| - 1];
      CachedCurieLookedUpOnce(cfg, be, st, init, c);
      var mid := ResolveMany(cfg, be, st, init).state;
      var last := curies[|curies| - 1];
      var step := Resolve(cfg, be, mid, last);
      assert step.state.lookups == mid.lookups || step.state.lookups == mid.lookups + [last];
    }
  }

  /**
   * With caching on in dynamic mode, a CURIE that is not cached yet and whose
   * prefix has a database is asked of the backend exactly once over any
   * sequence of calls that contains it.
   */
  lemma {:induction false} CachedCurieLookedUpExactlyOnce(cfg: Config, be: Backend, st: ResolverState, curies: seq<string>, c: string)
    requires st.cache.Some? && c !in st.cache.value && WellFormed(cfg, be, st)
    requires UsesPrefix(cfg, c) && OpenForPrefix(be, Prefix(c).value).Some?
    requires c in curies
    ensures multiset(ResolveMany(cfg, be, st, curies).state.lookups)[c] == multiset(st.lookups)[c] + 1
    decreases |curies|
  {
    var init := curies[..|curies| - 1];
    var last := curies[|curies| - 1];
    assert curies == init + [last];
    var mid := ResolveMany(cfg, be, st, init).state;
    var step := Resolve(cfg, be, mid, last);
    if c in init {
      CachedCurieLookedUpExactlyOnce(cfg, be, st, init, c);
      assert c in mid.cache.value;
      assert step.state.lookups == mid.lookups || last != c;
      assert step.state.lookups == mid.lookups || step.state.lookups == mid.lookups + [last];
    } else {
      assert last == c;
      CachedCurieLookedUpOnce(cfg, be, st, init, c);
      assert c !in mid.cache.value;
      assert step.state.lookups == mid.lookups + [c];
    }
  }

  /** In dynamic mode adapter construction is attempted at most once per prefix, and never again once the prefix is in the table. */
  lemma {:induction false} ConstructionAtMostOncePerPrefix(cfg: Config, be: Backend, st: ResolverState, curies: seq<string>, p: string)
    ensures var end := ResolveMany(cfg, be, st, curies).state;
      && multiset(end.constructions)[p] <= multiset(st.constructions)[p] + (if p in st.adapters then 0 else 1)
      && (p !in end.adapters ==> multiset(end.constructions)[p] == multiset(st.constructions)[p])
    decreases |curies|
  {
    if curies != [] {
      var init := curies[..|curies| - 1];
      ConstructionAtMostOncePerPrefix(cfg, be, st, init, p);
      var mid := ResolveMany(cfg, be, st, init).state;
      var step := Resolve(cfg, be, mid, curies[|curies| - 1]);
      assert step.state.constructions == mid.constructions
          || (p in step.state.adapters && step.state.constructions == mid.constructions + [Prefix(curies[|curies| - 1]).value])
          || step.state.constructions == mid.constructions + [Prefix(curies[|curies| - 1]).value];
    }
  }

  /** One call: a tombstoned prefix yields `None` and stays tombstoned. */
  lemma TombstoneStep(cfg: Config, be: Backend, st: ResolverState, c: string, p: string)
    requires WellFormed(cfg, be, st) && IsDynamic(cfg)
    requires p != "" && p in st.adapters && st.adapters[p].None?
    ensures var r := Resolve(cfg, be, st, c);
      && r.state.adapters[p].None?
      && (Prefix(c) == Some(p) ==> r.termLabel.None?)
  {
    assert Prefix(c) == Some(p) ==> UsesPrefix(cfg, c);
  }

  /** Once both adapters of a prefix have failed, every later label of a CURIE with that prefix is `None`. */
  lemma {:induction false} TombstoneIsSticky(cfg: Config, be: Backend, st: ResolverState, curies: seq<string>, p: string)
    requires WellFormed(cfg, be, st) && IsDynamic(cfg)
    requires p != "" && p in st.adapters && st.adapters[p].None?
    ensures var r := ResolveMany(cfg, be, st, curies);
      r.state.adapters[p].None? && NoLabelFor(p, curies, r.labels)
    decreases |curies|
  {
    if curies != [] {
      var init := curies[..|curies| - 1];
      var c := curies[|curies| - 1];
      assert curies == init + [c];
      TombstoneIsSticky(cfg, be, st, init, p);
      var prev := ResolveMany(cfg, be, st, init);
      TombstoneStep(cfg, be, prev.state, c, p);
      NoLabelForAppend(p, init, prev.labels, c, Resolve(cfg, be, prev.state, c).termLabel);
    }
  }

  /** Every CURIE of `curies` with prefix `p` got no label. */
  predicate NoLabelFor(p: string, curies: seq<string>, labels: seq<Option<string>>)
    requires |labels| == |curies|
  {
    forall i :: 0 <= i < |curies| && Prefix(curies[i]) == Some(p) ==> labels[i].None?
  }

  lemma NoLabelForAppend(p: string, curies: seq<string>, labels: seq<Option<string>>, c: string, l: Option<string>)
    requires |labels| == |curies| && NoLabelFor(p, curies, labels)
    requires Prefix(c) == Some(p) ==> l.None?
    ensures NoLabelFor(p, curies + [c], labels + [l])
  {
    var cs, ls := curies + [c], labels + [l];
    forall i | 0 <= i < |cs| && Prefix(cs[i]) == Some(p) ensures ls[i].None? {
      if i < |curies| {
        assert cs[i] == curies[i] && ls[i] == labels[i];
      }
    }
  }

}
