/**
  The caches keyed by identity: the prepared comparison of two captures and the
  sorted root of a running capture. Each holds references, so a mutation detaches
  from what it saw, and pointer equality means equal contents for as long as it lives.
 */
module ProfileCaches {
  import opened Wrappers
  import opened Ordering
  import opened StackTree
  import opened CanonicalTree
  import opened Comparison
  import opened ComparisonMeaning
  import opened ProfileStores
  import Union

  // ---- A prepared comparison ----

  /** Larger changes first, by the size of the delta; equal sizes by path. */
  predicate Ahead(cs: seq<Change>, x: nat, y: nat) {
    x < |cs| && y < |cs| &&
    (Size(cs[x]) > Size(cs[y]) || (Size(cs[x]) == Size(cs[y]) && PathBefore(cs[x].path, cs[y].path)))
  }

  function Size(c: Change): real { if c.delta < 0.0 then -c.delta else c.delta }

  function Indices(n: nat): (r: seq<nat>)
    ensures |r| == n && forall i :: 0 <= i < n ==> r[i] == i
  {
    seq(n, i => i)
  }

  function Order(cs: seq<Change>): seq<nat> { Sort((x, y) => Ahead(cs, x, y), Indices(|cs|)) }

  datatype Prepared = Prepared(report: Report, union: Node, order: seq<nat>)

  function CaptureOf(v: Value): Capture {
    Capture(v.meta.kind, v.meta.unit, v.meta.scope, v.meta.elapsed, v.meta.hz, v.root)
  }

  /** `PreparedComparison::new`: a fresh comparison, or its refusal. */
  function Preparing(current: Value, baseline: Value, mode: Mode): Result<Prepared, Refusal> {
    match Compared(CaptureOf(current), CaptureOf(baseline), mode)
    case Err(why) => Err(why)
    case Ok(report) =>
      Ok(Prepared(report, Union.ComparisonUnion(CaptureOf(current), CaptureOf(baseline)), Order(report.changes)))
  }

  method Prepare(current: Value, baseline: Value, mode: Mode) returns (r: Result<Prepared, Refusal>)
    ensures r == Preparing(current, baseline, mode)
  {
    var report := Compare(CaptureOf(current), CaptureOf(baseline), mode);
    if report.Err? { return Err(report.error); }
    var order := Order(report.value.changes);
    r := Ok(Prepared(report.value, Union.ComparisonUnion(CaptureOf(current), CaptureOf(baseline)), order));
  }

  /** The order lists every change once, and strictly by size then path when paths are distinct. */
  lemma OrderRanks(cs: seq<Change>)
    requires PathsIncrease(cs)
    ensures multiset(Order(cs)) == multiset(Indices(|cs|))
    ensures Increasing((x, y) => Ahead(cs, x, y), Order(cs))
  {
    var lt := (x: nat, y: nat) => Ahead(cs, x, y);
    PathBeforeStrictTotal();
    SortIncreasing(lt, Indices(|cs|));
  }

  // ---- `PreparedComparison::matching` ----

  /** Substring search. */
  predicate Contains(text: string, needle: string) {
    needle <= text || (text != [] && Contains(text[1..], needle))
  }

  /** The rows of an order whose labels contain the needle, in that order. */
  function Matching(order: seq<nat>, labels: nat -> string, needle: string): seq<nat> {
    if order == [] then []
    else
      var last := order[|order| - 1];
      Matching(order[..|order| - 1], labels, needle) + if Contains(labels(last), needle) then [last] else []
  }

  predicate StandsAt(text: string, needle: string, i: nat) {
    i + |needle| <= |text| && text[i..i + |needle|] == needle
  }

  /** The needle stands at some place in the text. */
  ghost predicate Occurs(text: string, needle: string) { exists i: nat :: StandsAt(text, needle, i) }

  lemma {:induction false} ContainsIff(text: string, needle: string)
    ensures Contains(text, needle) <==> Occurs(text, needle)
  {
    if needle <= text {
      assert StandsAt(text, needle, 0);
    } else if text != [] {
      ContainsIff(text[1..], needle);
      if i: nat :| StandsAt(text[1..], needle, i) { assert StandsAt(text, needle, i + 1); }
      if i: nat :| StandsAt(text, needle, i) && i > 0 { assert StandsAt(text[1..], needle, i - 1); }
      assert !StandsAt(text, needle, 0);
    } else {
      assert needle != [];
    }
  }

  /** A row is kept, at its place in the order, exactly if the needle occurs in its label. */
  lemma MatchingNext(order: seq<nat>, row: nat, labels: nat -> string, needle: string)
    ensures Matching([], labels, needle) == []
    ensures Matching(order + [row], labels, needle) ==
            Matching(order, labels, needle) + if Occurs(labels(row), needle) then [row] else []
  {
    assert (order + [row])[..|order|] == order;
    ContainsIff(labels(row), needle);
  }

  /** Every text contains the empty needle, so the shortcut that clones the order is the filter. */
  lemma {:induction false} EmptyNeedle(order: seq<nat>, labels: nat -> string)
    ensures Matching(order, labels, "") == order
  {
    if order == [] {
    } else {
      EmptyNeedle(order[..|order| - 1], labels);
      assert order == order[..|order| - 1] + [order[|order| - 1]];
    }
  }

  /** The rows of one prepared comparison; the last query is kept with its rows. */
  class Rows {
    const order: seq<nat>
    const labels: nat -> string
    var filter: Option<(string, seq<nat>)>

    ghost predicate Valid()
      reads this
    {
      filter.Some? ==> filter.value.1 == Matching(order, labels, filter.value.0)
    }

    constructor (order: seq<nat>, labels: nat -> string)
      ensures Valid() && this.order == order && this.labels == labels
    {
      this.order, this.labels, filter := order, labels, None;
    }

    /** The same rows for every query, whatever was asked before. */
    method Query(needle: string) returns (rows: seq<nat>)
      requires Valid()
      modifies this
      ensures Valid() && rows == Matching(order, labels, needle)
    {
      if filter.None? || filter.value.0 != needle {
        rows := [];
        if needle == "" {
          EmptyNeedle(order, labels);
          rows := order;
        } else {
          for i := 0 to |order|
            invariant rows == Matching(order[..i], labels, needle)
            invariant filter == old(filter)
          {
            assert order[..i + 1][..i] == order[..i];
            if Contains(labels(order[i]), needle) { rows := rows + [order[i]]; }
          }
          assert order[..|order|] == order;
        }
        filter := Some((needle, rows));
      }
      rows := filter.value.1;
    }
  }

  // ---- `App::prepared_comparison` ----

  /** The cached comparison holds clones of the two profiles it was made from. */
  datatype Entry = Entry(current: nat, baseline: nat, mode: Mode, prepared: Prepared)

  ghost predicate Sound(cache: Option<Entry>, view: map<nat, Value>) {
    cache.Some? ==>
      var e := cache.value;
      && e.current in view && e.baseline in view && e.current != e.baseline
      && Preparing(view[e.current], view[e.baseline], e.mode) == Ok(e.prepared)
  }

  ghost function Held(cache: Option<Entry>): set<nat> {
    if cache.None? then {} else {cache.value.current, cache.value.baseline}
  }

  /** Changes of other profiles leave the cache sound, and are seen outside it. */
  lemma OthersKeep(cache: Option<Entry>, view: map<nat, Value>, v: nat, value: Value)
    requires Sound(cache, view) && v !in Held(cache)
    ensures Sound(cache, view[v := value]) && view[v := value] - Held(cache) == (view - Held(cache))[v := value]
    ensures Sound(cache, view - {v}) && view - {v} - Held(cache) == view - Held(cache) - {v}
  {
    hide Preparing;
  }

  lemma HeldExists(cache: Option<Entry>, view: map<nat, Value>)
    requires Sound(cache, view)
    ensures Held(cache) <= view.Keys
    ensures cache.Some? ==> cache.value.current != cache.value.baseline
    ensures cache.Some? ==>
            Preparing(view[cache.value.current], view[cache.value.baseline], cache.value.mode) ==
            Ok(cache.value.prepared)
  {
    hide Preparing;
  }

  /** Clones of the compared profiles are a sound entry, and stay out of sight. */
  lemma EntrySound(view: map<nat, Value>, e: Entry, c: nat, b: nat)
    requires e.current in view && e.baseline in view && c !in view && b !in view && c != b
    requires Preparing(view[e.current], view[e.baseline], e.mode) == Ok(e.prepared)
    ensures Sound(Some(e.(current := c, baseline := b)), view[c := view[e.current]][b := view[e.baseline]])
    ensures view[c := view[e.current]][b := view[e.baseline]] - {c, b} == view
  {
    hide Preparing;
  }

  /** Dropping the old clones leaves the new entry sound. */
  lemma OldEntryGone(view: map<nat, Value>, e: Entry, x: nat, y: nat)
    requires Sound(Some(e), view) && x !in {e.current, e.baseline} && y !in {e.current, e.baseline}
    ensures Sound(Some(e), view - {x} - {y})
    ensures view - {x} - {y} - Held(Some(e)) == view - Held(Some(e)) - {x, y}
  {
    hide Preparing;
  }

  /** The profiles an application holds, and the comparison it prepared last. */
  class Comparisons {
    const store: ProfileStore
    var cache: Option<Entry>

    ghost predicate Valid()
      reads this, store, store.data, store.nodes
    {
      store.Valid() && Sound(cache, store.View())
    }

    /** The profiles as the rest of the application sees them. */
    ghost function Users(): map<nat, Value>
      requires Valid()
      reads this, store, store.data, store.nodes
    {
      store.View() - Held(cache)
    }

    constructor ()
      ensures Valid() && fresh(store) && fresh(store.data) && fresh(store.nodes) && Users() == map[]
    {
      hide Preparing;
      var empty := new ProfileStore();
      store, cache := empty, None;
    }

    /** A new capture. */
    method Open(value: Value) returns (v: nat)
      requires Valid()
      modifies store.data, store.nodes
      ensures Valid() && v !in old(Users()) && Users() == old(Users())[v := value]
    {
      hide ProfileStore.View, ProfileStore.Valid, ProfileStore.Pins, Sound, Preparing;
      v := store.Unused();
      HeldExists(cache, store.View());
      OthersKeep(cache, store.View(), v, value);
      store.New(v, value);
    }

    /** Another reference to the same version. */
    method Share(v: nat) returns (w: nat)
      requires Valid() && v in Users()
      modifies store.data
      ensures Valid() && w !in old(Users()) && Users() == old(Users())[w := old(Users())[v]]
    {
      hide ProfileStore.View, ProfileStore.Valid, ProfileStore.Pins, Sound, Preparing;
      w := store.Unused();
      HeldExists(cache, store.View());
      OthersKeep(cache, store.View(), w, store.View()[v]);
      store.Clone(v, w);
    }

    /** Any change of a capture, of its tree or of what is beside it. */
    method Mutate(v: nat, value: Value)
      requires Valid() && v in Users()
      modifies store.data, store.nodes
      ensures Valid() && Users() == old(Users())[v := value]
    {
      hide ProfileStore.View, ProfileStore.Valid, ProfileStore.Pins, Sound, Preparing;
      OthersKeep(cache, store.View(), v, value);
      store.Assign(v, value);
    }

    method Discard(v: nat)
      requires Valid() && v in Users()
      modifies store.data, store.nodes
      ensures Valid() && Users() == old(Users()) - {v}
    {
      hide ProfileStore.View, ProfileStore.Valid, ProfileStore.Pins, Sound, Preparing;
      OthersKeep(cache, store.View(), v, store.View()[v]);
      store.Drop(v);
    }

    predicate Hit(current: nat, baseline: nat, mode: Mode)
      requires current in store.data.owner && baseline in store.data.owner
      requires cache.Some? ==> cache.value.current in store.data.owner && cache.value.baseline in store.data.owner
      reads this, store, store.data
    {
      && cache.Some?
      && store.SameVersion(cache.value.current, current)
      && store.SameVersion(cache.value.baseline, baseline)
      && cache.value.mode == mode
    }

    /** Whatever was mutated, cloned or dropped before, the answer is that of a fresh comparison, refusals included. */
    method PreparedComparison(current: nat, baseline: nat, mode: Mode) returns (r: Result<Prepared, Refusal>)
      requires Valid() && current in Users() && baseline in Users()
      modifies this, store.data, store.nodes
      ensures Valid()
      ensures r == Preparing(old(Users())[current], old(Users())[baseline], mode)
      ensures forall v :: v in old(Users()) ==> v in Users() && Users()[v] == old(Users())[v]
      ensures forall v :: v in Users() ==> v in old(Users())
      ensures r.Err? ==> cache == old(cache)
    {
      hide ProfileStore.View, ProfileStore.Valid, ProfileStore.Pins, Sound, Preparing;
      HeldExists(cache, store.View());
      if Hit(current, baseline, mode) {
        store.VersionsAgree(cache.value.current, current);
        store.VersionsAgree(cache.value.baseline, baseline);
        return Ok(cache.value.prepared);
      }
      var x := store.Read(current);
      var y := store.Read(baseline);
      r := Prepare(x, y, mode);
      if r.Ok? {
        Replace(Entry(current, baseline, mode, r.value));
      }
    }

    /** Clones of the two profiles, held by a new entry. */
    method HoldClones(e: Entry) returns (entry: Entry)
      requires store.Valid() && e.current in store.View() && e.baseline in store.View()
      requires Preparing(store.View()[e.current], store.View()[e.baseline], e.mode) == Ok(e.prepared)
      modifies store.data, store.nodes
      ensures store.Valid() && Sound(Some(entry), store.View()) && store.View() - Held(Some(entry)) == old(store.View())
      ensures entry.current !in old(store.View()) && entry.baseline !in old(store.View())
    {
      hide ProfileStore.View, ProfileStore.Valid, ProfileStore.Pins, Sound, Preparing;
      ghost var view := store.View();
      var c := store.Unused();
      store.Clone(e.current, c);
      var b := store.Unused();
      store.Clone(e.baseline, b);
      EntrySound(view, e, c, b);
      entry := e.(current := c, baseline := b);
    }

    /** The new entry is complete, with its two clones, before the old one is dropped. */
    method Replace(e: Entry)
      requires Valid() && e.current in Users() && e.baseline in Users()
      requires Preparing(Users()[e.current], Users()[e.baseline], e.mode) == Ok(e.prepared)
      modifies this, store.data, store.nodes
      ensures Valid()
      ensures Users() == old(Users())
    {
      hide ProfileStore.View, ProfileStore.Valid, ProfileStore.Pins, Sound, Preparing;
      HeldExists(cache, store.View());
      var entry := HoldClones(e);
      if cache.Some? {
        OldEntryGone(store.View(), entry, cache.value.current, cache.value.baseline);
        store.Drop(cache.value.current);
        store.Drop(cache.value.baseline);
      }
      cache := Some(entry);
    }
  }

  // ---- `Probes::apply` ----

  /** The roots a publisher holds: the one it sorted, and the result. */
  datatype Sorted = Sorted(original: Holder, sorted: Holder)

  ghost predicate SortedPins(cache: Option<Sorted>, pins: map<Holder, Node>) {
    cache.Some? ==>
      var e := cache.value;
      e.original in pins && e.sorted in pins && e.original != e.sorted && pins[e.sorted] == SortTree(pins[e.original])
  }

  lemma SortedAt(cache: Option<Sorted>, pins: map<Holder, Node>)
    requires SortedPins(cache, pins)
    ensures cache.Some? ==>
      var e := cache.value;
      e.original in pins && e.sorted in pins && e.original != e.sorted && pins[e.sorted] == SortTree(pins[e.original])
  {
    hide SortTree;
  }

  lemma SortedNow(cache: Option<Sorted>, pins: map<Holder, Node>)
    requires cache.Some?
    requires cache.value.original in pins && cache.value.sorted in pins && cache.value.original != cache.value.sorted
    requires pins[cache.value.sorted] == SortTree(pins[cache.value.original])
    ensures SortedPins(cache, pins)
  {
    hide SortTree;
  }

  class Publisher {
    const store: ProfileStore
    var cache: Option<Sorted>

    ghost predicate Valid()
      reads this, store, store.data, store.nodes
    {
      store.Valid() && SortedPins(cache, store.Pins())
    }

    constructor ()
      ensures Valid() && fresh(store) && fresh(store.data) && fresh(store.nodes) && store.View() == map[]
    {
      store := new ProfileStore();
      cache := None;
    }

    /** A new capture. */
    method Open(value: Value) returns (v: nat)
      requires Valid()
      modifies store.data, store.nodes
      ensures Valid() && v !in old(store.View()) && store.View() == old(store.View())[v := value]
    {
      hide ProfileStore.View, ProfileStore.Valid, ProfileStore.Pins, SortedPins, SortTree;
      v := store.Unused();
      store.New(v, value);
    }

    /** Observing samples changes the tree of the capture or the counters beside it. */
    method Mutate(v: nat, value: Value)
      requires Valid() && v in store.View()
      modifies store.data, store.nodes
      ensures Valid() && store.View() == old(store.View())[v := value]
    {
      hide ProfileStore.View, ProfileStore.Valid, ProfileStore.Pins, SortedPins, SortTree;
      store.Assign(v, value);
    }

    method Discard(v: nat)
      requires Valid() && v in store.View()
      modifies store.data, store.nodes
      ensures Valid() && store.View() == old(store.View()) - {v}
    {
      hide ProfileStore.View, ProfileStore.Valid, ProfileStore.Pins, SortedPins, SortTree;
      store.Drop(v);
    }

    /** What is published is the capture with its current tree sorted, from the cache or not. */
    method Publish(v: nat) returns (out: nat)
      requires Valid() && v in store.View()
      modifies this, store.data, store.nodes
      ensures Valid() && out !in old(store.View())
      ensures store.View() ==
              old(store.View())[out := Value(old(store.View())[v].meta, SortTree(old(store.View())[v].root))]
    {
      hide ProfileStore.View, ProfileStore.Valid, ProfileStore.Pins, SortedPins, SortTree;
      SortedAt(cache, store.Pins());
      out := store.Unused();
      store.Clone(v, out);
      if cache.Some? {
        store.RootsAgree(cache.value.original, v);
        if store.SameRoot(cache.value.original, v) {
          store.ShareRoot(out, cache.value.sorted);
          return;
        }
      }
      Refresh(v, out);
    }

    /** Sorts the clone, and remembers the tree it was sorted from. */
    method Refresh(v: nat, out: nat)
      requires Valid() && v in store.View() && out in store.View() && v != out &&
               store.View()[v].root == store.View()[out].root
      modifies this, store.data, store.nodes
      ensures Valid()
      ensures store.View() ==
              old(store.View())[out := Value(old(store.View())[out].meta, SortTree(old(store.View())[out].root))]
    {
      hide ProfileStore.View, ProfileStore.Valid, ProfileStore.Pins, SortedPins, SortTree;
      var value := store.Read(out);
      store.SetRoot(out, SortTree(value.root));
      Remember(v, out);
    }

    method Take(v: nat, out: nat) returns (e: Sorted)
      requires store.Valid() && v in store.View() && out in store.View()
      modifies store.nodes
      ensures store.Valid() && store.View() == old(store.View())
      ensures e.original.Pin? && e.sorted.Pin? && e.original != e.sorted
      ensures e.original !in old(store.Pins()) && e.sorted !in old(store.Pins())
      ensures store.Pins() ==
              old(store.Pins())[e.original := old(store.View())[v].root][e.sorted := old(store.View())[out].root]
    {
      hide ProfileStore.View, ProfileStore.Valid, ProfileStore.Pins;
      var k := store.UnusedPin();
      store.PinRoot(v, Pin(k));
      var m := store.UnusedPin();
      store.PinRoot(out, Pin(m));
      e := Sorted(Pin(k), Pin(m));
    }

    /** The new pair of references is taken before the old pair is dropped. */
    method Remember(v: nat, out: nat)
      requires Valid() && v in store.View() && out in store.View()
      requires store.View()[out].root == SortTree(store.View()[v].root)
      modifies this, store.nodes
      ensures Valid() && store.View() == old(store.View())
    {
      hide ProfileStore.View, ProfileStore.Valid, ProfileStore.Pins, SortedPins, SortTree;
      SortedAt(cache, store.Pins());
      var e := Take(v, out);
      if cache.Some? {
        store.Unpin(cache.value.original);
        store.Unpin(cache.value.sorted);
      }
      cache := Some(e);
      SortedNow(cache, store.Pins());
    }
  }
}
