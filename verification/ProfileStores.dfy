/**
  Copy-on-write profiles, two levels deep: a profile variable refers to a shared
  capture, and every capture refers to a shared tree.
 */
module ProfileStores {
  import opened StackTree
  import opened SharedVersions
  import opened Sums
  import Profiles

  /** A capture without its tree: what the outer allocation holds beside the root reference. */
  datatype Meta = Meta(kind: Profiles.Kind, unit: string, scope: string, elapsed: real, hz: nat)

  datatype Value = Value(meta: Meta, root: Node)

  /** Who holds a reference to a tree: the capture at an address, or a cache. */
  datatype Holder = Root(of: nat) | Pin(id: nat)

  /** What the references see: variables see captures in the heap, captures and caches see trees. */
  datatype Store = Store(metas: map<nat, Meta>, owner: map<nat, nat>, heap: set<nat>, nodes: map<Holder, Node>)

  /** Every capture owns one root reference, and nothing else but caches does. */
  ghost predicate Linked(s: Store) {
    && s.metas.Keys == s.owner.Keys
    && (forall v :: v in s.owner ==> s.owner[v] in s.heap)
    && (forall p :: p in s.heap <==> Root(p) in s.nodes)
  }

  /** The plain values of the profile variables. */
  ghost function Values(s: Store): (m: map<nat, Value>)
    requires Linked(s)
    ensures m.Keys == s.owner.Keys
  {
    map v | v in s.owner :: Value(s.metas[v], s.nodes[Root(s.owner[v])])
  }

  /** The trees held directly by caches. */
  ghost function Pinned(nodes: map<Holder, Node>): (m: map<Holder, Node>)
    ensures forall x :: x in m <==> x in nodes && x.Pin?
  {
    map x | x in nodes && x.Pin? :: nodes[x]
  }

  lemma ValueAt(s: Store, v: nat)
    requires Linked(s) && v in s.owner
    ensures v in s.metas && Root(s.owner[v]) in s.nodes && s.owner[v] in s.heap
    ensures Values(s)[v] == Value(s.metas[v], s.nodes[Root(s.owner[v])])
  {
  }

  lemma PinAt(s: Store, k: Holder)
    requires k.Pin? && k in s.nodes
    ensures Pinned(s.nodes)[k] == s.nodes[k]
  {
  }

  lemma PinnedUpdate(nodes: map<Holder, Node>, k: Holder, root: Node)
    ensures Pinned(nodes[k := root]) == if k.Pin? then Pinned(nodes)[k := root] else Pinned(nodes)
    ensures Pinned(nodes - {k}) == Pinned(nodes) - {k}
  {
  }

  /** A new capture at a fresh address, for a new variable. */
  ghost function Created(s: Store, v: nat, at: nat, value: Value): Store {
    Store(s.metas[v := value.meta], s.owner[v := at], s.heap + {at}, s.nodes[Root(at) := value.root])
  }

  lemma CreatedKeeps(s: Store, v: nat, at: nat, value: Value)
    requires Linked(s) && v !in s.owner && at !in s.heap
    ensures Linked(Created(s, v, at, value)) && Values(Created(s, v, at, value)) == Values(s)[v := value]
  {
  }

  /** A variable moved to a copy of its capture, which shares the root. */
  ghost function Copied(s: Store, v: nat, at: nat): Store
    requires v in s.owner && Root(s.owner[v]) in s.nodes
  {
    Store(s.metas, s.owner[v := at], s.heap + {at}, s.nodes[Root(at) := s.nodes[Root(s.owner[v])]])
  }

  lemma CopiedKeeps(s: Store, v: nat, at: nat)
    requires Linked(s) && v in s.owner && at !in s.heap
    ensures Root(s.owner[v]) in s.nodes
    ensures Linked(Copied(s, v, at)) && Values(Copied(s, v, at)) == Values(s)
  {
  }

  /** A new root for the sole variable of a capture is seen by that variable only. */
  lemma RootKeeps(s: Store, v: nat, n: Node)
    requires Linked(s) && v in s.owner && Sole(s.owner, v)
    ensures Linked(s.(nodes := s.nodes[Root(s.owner[v]) := n]))
    ensures Values(s.(nodes := s.nodes[Root(s.owner[v]) := n])) == Values(s)[v := Value(s.metas[v], n)]
  {
  }

  lemma MetaKeeps(s: Store, v: nat, m: Meta)
    requires Linked(s) && v in s.owner
    ensures Linked(s.(metas := s.metas[v := m]))
    ensures Values(s.(metas := s.metas[v := m])) == Values(s)[v := Value(m, Values(s)[v].root)]
  {
  }

  lemma ClonedKeeps(s: Store, v: nat, w: nat)
    requires Linked(s) && v in s.owner && w !in s.owner
    ensures v in s.metas
    ensures Linked(s.(metas := s.metas[w := s.metas[v]], owner := s.owner[w := s.owner[v]]))
    ensures Values(s.(metas := s.metas[w := s.metas[v]], owner := s.owner[w := s.owner[v]])) ==
            Values(s)[w := Values(s)[v]]
  {
  }

  lemma DroppedKeeps(s: Store, v: nat)
    requires Linked(s)
    ensures Linked(s.(metas := s.metas - {v}, owner := s.owner - {v}))
    ensures Values(s.(metas := s.metas - {v}, owner := s.owner - {v})) == Values(s) - {v}
  {
  }

  /** Freeing a capture drops its root reference. */
  lemma FreedKeeps(s: Store, p: nat)
    requires Linked(s) && forall v :: v in s.owner ==> s.owner[v] != p
    ensures Linked(s.(heap := s.heap - {p}, nodes := s.nodes - {Root(p)}))
    ensures Values(s.(heap := s.heap - {p}, nodes := s.nodes - {Root(p)})) == Values(s)
  {
  }

  lemma PinKeeps(s: Store, k: Holder, root: Node)
    requires Linked(s) && k.Pin?
    ensures Linked(s.(nodes := s.nodes[k := root])) && Linked(s.(nodes := s.nodes - {k}))
    ensures Values(s.(nodes := s.nodes[k := root])) == Values(s)
    ensures Values(s.(nodes := s.nodes - {k})) == Values(s)
  {
  }

  lemma FreePin(owner: map<Holder, nat>) returns (k: nat)
    ensures Pin(k) !in owner
  {
    var ids := set x | x in owner && x.Pin? :: x.id;
    k := Above(ids);
    assert forall x :: x in owner && x.Pin? ==> x.id in ids && x.id < k;
  }

  // ---- Profiles as references ----

  /** Profile variables over shared captures, each owning one reference to a shared root. */
  class ProfileStore {
    const data: Arcs<nat, Meta>
    const nodes: Arcs<Holder, Node>

    ghost predicate Apart()
      reads this, data, nodes
    {
      data as object != nodes as object && data.Valid() && nodes.Valid()
    }

    ghost function State(): Store
      requires Apart()
      reads this, data, nodes
    {
      Store(data.View(), data.owner, data.cells.Keys, nodes.View())
    }

    ghost predicate Valid()
      reads this, data, nodes
    {
      Apart() && Linked(State())
    }

    /** Every profile variable as the plain value it stands for. */
    ghost function View(): (m: map<nat, Value>)
      requires Valid()
      reads this, data, nodes
      ensures m.Keys == data.owner.Keys
    {
      Values(State())
    }

    /** Every root held directly by a cache. */
    ghost function Pins(): (m: map<Holder, Node>)
      requires Valid()
      reads this, data, nodes
      ensures forall k :: k in m <==> k in nodes.owner && k.Pin?
    {
      Pinned(State().nodes)
    }

    constructor ()
      ensures Valid() && fresh(data) && fresh(nodes) && View() == map[] && Pins() == map[]
    {
      data := new Arcs<nat, Meta>();
      nodes := new Arcs<Holder, Node>();
    }

    /** Pointer equality of two profiles. */
    predicate SameVersion(v: nat, w: nat)
      requires v in data.owner && w in data.owner
      reads this, data
    {
      data.Same(v, w)
    }

    /** Pointer equality of a cached root and a profile's root. */
    predicate SameRoot(k: Holder, v: nat)
      requires k in nodes.owner && v in data.owner && Root(data.owner[v]) in nodes.owner
      reads this, data, nodes
    {
      nodes.Same(k, Root(data.owner[v]))
    }

    /** Dereferencing a profile variable. */
    method Read(v: nat) returns (value: Value)
      requires Valid() && v in View()
      ensures value == View()[v]
    {
      ValueAt(State(), v);
      value := Value(data.cells[data.owner[v]], nodes.cells[nodes.owner[Root(data.owner[v])]]);
    }

    /** A variable not in use yet. */
    method Unused() returns (v: nat)
      requires Valid()
      ensures v !in View()
    {
      ghost var bound := Above(data.owner.Keys);
      assert bound !in data.owner.Keys;
      v :| v !in data.owner;
    }

    /** A place in a cache not in use yet. */
    method UnusedPin() returns (k: nat)
      requires Valid()
      ensures Pin(k) !in Pins()
    {
      hide Linked, Exact, ViewOf;
      ghost var free := FreePin(nodes.owner);
      k :| Pin(k) !in nodes.owner;
    }

    /** Equal references see equal values. */
    lemma VersionsAgree(v: nat, w: nat)
      requires Valid() && v in View() && w in View() && SameVersion(v, w)
      ensures View()[v] == View()[w]
    {
      ValueAt(State(), v);
      ValueAt(State(), w);
    }

    lemma RootsAgree(k: Holder, v: nat)
      requires Valid() && v in View() && k in Pins()
      ensures Root(data.owner[v]) in nodes.owner
      ensures SameRoot(k, v) ==> Pins()[k] == View()[v].root
    {
      ValueAt(State(), v);
      PinAt(State(), k);
    }

    method New(v: nat, value: Value)
      requires Valid() && v !in View()
      modifies data, nodes
      ensures Valid() && View() == old(View())[v := value] && Pins() == old(Pins())
    {
      hide Values, Pinned, Linked, Exact, ViewOf;
      ghost var s := State();
      data.New(v, value.meta);
      var at := data.owner[v];
      CreatedKeeps(s, v, at, value);
      PinnedUpdate(s.nodes, Root(at), value.root);
      NotLinked(s, at);
      nodes.New(Root(at), value.root);
      assert State() == Created(s, v, at, value);
    }

    /** Cloning a profile shares the whole version. */
    method Clone(v: nat, w: nat)
      requires Valid() && v in View() && w !in View()
      modifies data
      ensures Valid() && View() == old(View())[w := old(View())[v]] && Pins() == old(Pins())
      ensures SameVersion(v, w)
    {
      hide Values, Pinned, Linked, Exact, ViewOf;
      ClonedKeeps(State(), v, w);
      data.Clone(v, w);
    }

    method Drop(v: nat)
      requires Valid() && v in View()
      modifies data, nodes
      ensures Valid() && View() == old(View()) - {v} && Pins() == old(Pins())
    {
      hide Values, Pinned, Linked, Exact, ViewOf;
      ghost var s := State();
      DroppedKeeps(s, v);
      ValueAt(s, v);
      var p := data.owner[v];
      var freed := data.Drop(v);
      if freed {
        FreedKeeps(s.(metas := s.metas - {v}, owner := s.owner - {v}), p);
        PinnedUpdate(s.nodes, Root(p), s.nodes[Root(p)]);
        var _ := nodes.Drop(Root(p));
        assert State() ==
               s.(metas := s.metas - {v}, owner := s.owner - {v}, heap := s.heap - {p}, nodes := s.nodes - {Root(p)});
      } else {
        assert State() == s.(metas := s.metas - {v}, owner := s.owner - {v});
      }
    }

    /** Mutable access to a profile: a shared version is copied, and the copy shares the root. */
    method MakeMut(v: nat)
      requires Valid() && v in View()
      modifies data, nodes
      ensures Valid() && View() == old(View()) && Pins() == old(Pins())
      ensures v in data.owner && Sole(data.owner, v)
      ensures old(v in data.owner && Root(data.owner[v]) in nodes.owner) && Root(data.owner[v]) in nodes.owner
      ensures nodes.owner[Root(data.owner[v])] == old(nodes.owner[Root(data.owner[v])])
    {
      hide Values, Pinned, Linked, Exact, ViewOf, Sole;
      ghost var s := State();
      ValueAt(s, v);
      var from := data.owner[v];
      var copied := data.Detach(v);
      if copied {
        var at := data.owner[v];
        CopiedKeeps(s, v, at);
        NotLinked(s, at);
        PinnedUpdate(s.nodes, Root(at), s.nodes[Root(from)]);
        nodes.Clone(Root(from), Root(at));
        assert State() == Copied(s, v, at);
      } else {
        assert State() == s;
      }
    }

    /** A direct field mutation detaches first. */
    method SetMeta(v: nat, m: Meta)
      requires Valid() && v in View()
      modifies data, nodes
      ensures Valid() && View() == old(View())[v := Value(m, old(View())[v].root)] && Pins() == old(Pins())
    {
      hide Values, Pinned, Linked, Exact, ViewOf, Sole;
      MakeMut(v);
      ghost var s := State();
      data.Set(v, m);
      MetaKeeps(s, v, m);
      ValueAt(s, v);
      assert State() == s.(metas := s.metas[v := m]);
    }

    /** A mutation of the tree detaches the profile and then its root. */
    method SetRoot(v: nat, n: Node)
      requires Valid() && v in View()
      modifies data, nodes
      ensures Valid() && View() == old(View())[v := Value(old(View())[v].meta, n)] && Pins() == old(Pins())
    {
      hide Values, Pinned, Linked, Exact, ViewOf, Sole;
      MakeMut(v);
      ghost var s := State();
      ValueAt(s, v);
      RootKeeps(s, v, n);
      PinnedUpdate(s.nodes, Root(s.owner[v]), n);
      nodes.Set(Root(data.owner[v]), n);
      assert State() == s.(nodes := s.nodes[Root(s.owner[v]) := n]);
    }

    /** Any change of a capture: of its tree, and of what is beside it. */
    method Assign(v: nat, value: Value)
      requires Valid() && v in View()
      modifies data, nodes
      ensures Valid() && View() == old(View())[v := value] && Pins() == old(Pins())
    {
      hide Values, Pinned, Linked, Exact, ViewOf;
      SetRoot(v, value.root);
      SetMeta(v, value.meta);
    }

    /** The root field becomes a clone of a root a cache holds. */
    method ShareRoot(v: nat, k: Holder)
      requires Valid() && v in View() && k in Pins()
      modifies data, nodes
      ensures Valid() && View() == old(View())[v := Value(old(View())[v].meta, old(Pins())[k])] && Pins() == old(Pins())
    {
      hide Values, Pinned, Linked, Exact, ViewOf, Sole;
      MakeMut(v);
      ghost var s := State();
      ValueAt(s, v);
      PinAt(s, k);
      var p := data.owner[v];
      RootKeeps(s, v, s.nodes[k]);
      PinnedUpdate(s.nodes, Root(p), s.nodes[k]);
      var _ := nodes.Drop(Root(p));
      nodes.Clone(k, Root(p));
      assert State() == s.(nodes := s.nodes[Root(p) := s.nodes[k]]);
    }

    /** A cache takes a reference to a profile's root. */
    method PinRoot(v: nat, k: Holder)
      requires Valid() && v in View() && k.Pin? && k !in Pins()
      modifies nodes
      ensures Valid() && View() == old(View()) && Pins() == old(Pins())[k := old(View())[v].root]
      ensures v in data.owner && Root(data.owner[v]) in nodes.owner && k in nodes.owner
      ensures SameRoot(k, v)
    {
      hide Values, Pinned, Linked, Exact, ViewOf;
      ghost var s := State();
      ValueAt(s, v);
      PinKeeps(s, k, s.nodes[Root(s.owner[v])]);
      PinnedUpdate(s.nodes, k, s.nodes[Root(s.owner[v])]);
      nodes.Clone(Root(data.owner[v]), k);
      assert State() == s.(nodes := s.nodes[k := s.nodes[Root(s.owner[v])]]);
    }

    method Unpin(k: Holder)
      requires Valid() && k in Pins()
      modifies nodes
      ensures Valid() && View() == old(View()) && Pins() == old(Pins()) - {k}
    {
      hide Values, Pinned, Linked, Exact, ViewOf;
      ghost var s := State();
      PinKeeps(s, k, s.nodes[k]);
      PinnedUpdate(s.nodes, k, s.nodes[k]);
      var _ := nodes.Drop(k);
      assert State() == s.(nodes := s.nodes - {k});
    }
  }

  lemma NotLinked(s: Store, at: nat)
    requires Linked(s) && at !in s.heap
    ensures Root(at) !in s.nodes
  {
  }
}
