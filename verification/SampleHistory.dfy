/** Histories that share chunks, and the bounded series kept in them. */
module SampleHistory {
  import opened Wrappers
  import opened ChunkHeap
  import opened Sums

  // ---- The operations ----

  /** All live versions over one allocator; addresses are reused once freed. */
  class Histories {
    var cells: Cells
    var strong: map<nat, nat>
    var live: map<nat, Handle>

    ghost predicate Valid()
      reads this
    {
      Coherent(cells, strong, live)
    }

    /** Every version as the plain sequence it stands for. */
    ghost function View(): map<nat, seq<Sample>>
      requires Valid()
      reads this
    {
      ViewOf(cells, live)
    }

    constructor ()
      ensures Valid() && View() == map[]
    {
      cells, strong, live := map[], map[], map[];
    }

    /** Any address not in use. */
    method Allocate() returns (at: nat)
      ensures at !in cells
    {
      ghost var bound := Above(cells.Keys);
      assert bound !in cells.Keys;
      at :| at !in cells;
    }

    method Create(v: nat)
      requires Valid() && v !in live
      modifies this
      ensures Valid() && View() == old(View())[v := []]
    {
      hide Chunked, Contents;
      CreateKeeps(cells, strong, live, v);
      live := live[v := Handle([], 0, 0)];
    }

    /** A clone shares every chunk and holds one more reference to each. */
    method Clone(v: nat, w: nat)
      requires Valid() && v in live && w !in live
      modifies this
      ensures Valid() && View() == old(View())[w := old(View())[v]]
      ensures live == old(live)[w := old(live)[v]] && cells == old(cells)
    {
      hide Chunked, Contents;
      ghost var before := live;
      strong := map c | c in strong :: if c in live[v].chunks then strong[c] + 1 else strong[c];
      live := live[w := live[v]];
      forall c | c in cells
        ensures |Holders(live, c)| == |Holders(before, c)| + if c in before[v].chunks then 1 else 0
      {
        HoldersAdd(before, w, before[v], c);
      }
    }

    /** A dropped version releases its chunks; those nobody holds are freed. */
    method Drop(v: nat)
      requires Valid() && v in live
      modifies this
      ensures Valid() && View() == old(View()) - {v}
    {
      hide Chunked, Contents;
      ghost var a, before, counts := cells, live, strong;
      strong := Moved(strong, live[v].chunks, []);
      cells := map c | c in cells && c in strong :: cells[c];
      live := live - {v};
      ReleaseUntouched(a, counts, before, v, [], cells);
      Unbinding(a, cells, counts, before, v);
    }

    /** Appends to the version's own tail, copying it first when another version shares it. */
    method Push(v: nat, s: Sample)
      requires Valid() && v in live
      modifies this
      ensures Valid() && View() == old(View())[v := old(View())[v] + [s]]
    {
      hide Chunked, Contents, ViewOf;
      ghost var a, before, counts := cells, live, strong;
      var h := live[v];
      LastAllocated(cells, h);
      ghost var kept := Kept(cells, h);
      var full := h.chunks == [] || |cells[h.chunks[|h.chunks| - 1]]| == CHUNK;
      var tail, chunks, data;
      if full {
        tail := Allocate();
        chunks, data := h.chunks + [tail], [];
        strong := strong[tail := 1];
      } else {
        chunks, tail := h.chunks, h.chunks[|h.chunks| - 1];
        data := cells[tail];
        if strong[tail] > 1 {
          var copy := Allocate();
          strong := strong[copy := 1][tail := strong[tail] - 1];
          chunks, tail := chunks[|chunks| - 1 := copy], copy;
        }
      }
      cells := cells[tail := data + [s]];
      live := live[v := Handle(chunks, h.offset, h.len + 1)];
      assert chunks == kept + [tail];
      assert Writable(a, counts, h, tail);
      assert live[v] == Pushed(a, h, tail) && cells == a[tail := Tail(a, h) + [s]];
      PushMoved(a, counts, before, v, tail);
      assert strong == Moved(counts, h.chunks, live[v].chunks);
      hide Coherent, Kept, Tail, Pushed, Moved, Writable;
      PushKeeps(a, counts, before, v, h, tail, s, cells, live[v]);
      ViewAt(a, before, v);
    }

    /** Drops the oldest sample; the first chunk is released once all its samples are dropped. */
    method PopFront(v: nat)
      requires Valid() && v in live
      modifies this
      ensures Valid()
      ensures View() == old(View())[v := if old(View())[v] == [] then [] else old(View())[v][1..]]
    {
      hide Chunked, Contents;
      var h := live[v];
      ContentsLength(cells, h);
      if h.len == 0 {
        return;
      }
      ghost var a, before, counts := cells, live, strong;
      FirstAllocated(cells, h);
      PopContents(cells, h);
      if h.offset + 1 == |cells[h.chunks[0]]| {
        var first := h.chunks[0];
        live := live[v := Handle(h.chunks[1..], 0, h.len - 1)];
        if strong[first] == 1 {
          cells, strong := cells - {first}, strong - {first};
        } else {
          strong := strong[first := strong[first] - 1];
        }
        PopKeeps(a, counts, before, v, h, cells, strong);
      } else {
        live := live[v := Handle(h.chunks, h.offset + 1, h.len - 1)];
        OffsetKeeps(a, counts, before, v, h);
      }
    }

    function Len(v: nat): (n: nat)
      requires v in live
      reads this
    {
      live[v].len
    }

    /** Sample `index` of a version, by division over full chunks. */
    method Get(v: nat, index: nat) returns (r: Option<Sample>)
      requires Valid() && v in live
      ensures r == if index < |View()[v]| then Some(View()[v][index]) else None
    {
      hide Chunked, Contents;
      var h := live[v];
      ContentsLength(cells, h);
      assert View()[v] == Contents(cells, h);
      if index >= h.len {
        return None;
      }
      ContentsIndex(cells, h, index);
      var at := index + h.offset;
      ChunksAllocated(cells, h);
      r := Some(cells[h.chunks[at / CHUNK]][at % CHUNK]);
    }

    /** The newest sample. */
    method Last(v: nat) returns (r: Option<Sample>)
      requires Valid() && v in live
      ensures r == if View()[v] == [] then None else Some(View()[v][|View()[v]| - 1])
    {
      hide Chunked, Contents;
      var h := live[v];
      ContentsLength(cells, h);
      ContentsLast(cells, h);
      assert View()[v] == Contents(cells, h);
      if h.chunks == [] {
        return None;
      }
      var tail := cells[h.chunks[|h.chunks| - 1]];
      r := Some(tail[|tail| - 1]);
    }

    /** All samples in order, chunk by chunk. */
    method Iter(v: nat) returns (out: seq<Sample>)
      requires Valid() && v in live
      ensures out == View()[v]
    {
      hide Chunked, Contents;
      var h := live[v];
      ChunksAllocated(cells, h);
      out := [];
      for i := 0 to |h.chunks|
        invariant out == FromOffset(cells, h, i)
      {
        FromOffsetNext(cells, h, i);
        out := out + cells[h.chunks[i]][if i == 0 then h.offset else 0..];
      }
      FromOffsetAll(cells, h);
      assert View()[v] == Contents(cells, h);
    }

    /** Makes chunk i this version's own and rewrites its samples that were not dropped. */
    method RewriteChunk(v: nat, i: nat, f: Sample -> Sample)
      requires Valid() && v in live && i < |live[v].chunks|
      modifies this
      ensures Valid() && View() == old(View())[v := MapChunk(f, old(View())[v], old(live[v]).offset, i)]
      ensures v in live && live[v].offset == old(live[v]).offset && |live[v].chunks| == |old(live[v]).chunks|
    {
      hide Chunked, Contents, Moved, Mapped, MapChunk, ViewOf;
      ghost var a, before, counts := cells, live, strong;
      var h := live[v];
      ChunksAllocated(cells, h);
      var at, data := h.chunks[i], Mapped(f, cells[h.chunks[i]], if i == 0 then h.offset else 0);
      if strong[at] > 1 {
        var copy := Allocate();
        strong := strong[copy := 1][at := strong[at] - 1];
        at := copy;
      }
      cells := cells[at := data];
      live := live[v := WithChunkAt(h, i, at)];
      RewriteChunkKeeps(a, counts, before, v, h, i, at, f, cells, strong);
    }

    /** Rewrites every sample of one version through mutable references. */
    method IterMut(v: nat, f: Sample -> Sample)
      requires Valid() && v in live
      modifies this
      ensures Valid() && View() == old(View())[v := MapAll(f, old(View())[v])]
      ensures forall j :: 0 <= j < |old(View())[v]| ==> View()[v][j] == f(old(View())[v][j])
    {
      hide Chunked, Contents;
      ghost var first, offset := View()[v], live[v].offset;
      MapBelowAll(cells, live[v], f);
      MapBelowNext(f, first, offset, 0);
      var n := |live[v].chunks|;
      for i := 0 to n
        invariant Valid() && v in live && |live[v].chunks| == n && live[v].offset == offset
        invariant View() == old(View())[v := MapBelow(f, first, offset, i)]
      {
        MapBelowNext(f, first, offset, i);
        RewriteChunk(v, i, f);
      }
    }

    method Unused() returns (w: nat)
      ensures w !in live
    {
      ghost var bound := Above(live.Keys);
      assert bound !in live.Keys;
      w :| w !in live;
    }

    /** Keeps the samples that pass, in a version rebuilt from scratch that replaces this one. */
    method Retain(v: nat, keep: Sample -> bool)
      requires Valid() && v in live
      modifies this
      ensures Valid() && View() == old(View())[v := Filter(keep, old(View())[v])]
    {
      var w := Unused();
      hide Coherent, ViewOf, Filter;
      Collect(v, w, keep);
      Drop(v);
      Clone(w, v);
      Drop(w);
    }

    /** Pushes the samples of v that pass onto a new version w. */
    method Collect(v: nat, w: nat, keep: Sample -> bool)
      requires Valid() && v in live && w !in live
      modifies this
      ensures Valid() && View() == old(View())[w := Filter(keep, old(View())[v])]
    {
      hide Chunked, Contents;
      var samples := Iter(v);
      Create(w);
      for i := 0 to |samples|
        invariant Valid() && View() == old(View())[w := Filter(keep, samples[..i])]
      {
        assert w in View() && v in View();
        ghost var next := samples[..i + 1];
        assert next[..|next| - 1] == samples[..i] && next[|next| - 1] == samples[i];
        ghost var kept := Filter(keep, samples[..i]);
        assert Filter(keep, next) == if keep(samples[i]) then kept + [samples[i]] else kept;
        if keep(samples[i]) {
          Push(w, samples[i]);
        }
      }
      assert samples[..|samples|] == samples;
    }

    /** A repeat of the newest timestamp is ignored; beyond 600 samples the oldest are dropped. */
    method Record(v: nat, at: nat, value: Option<Reading>)
      requires Valid() && v in live
      modifies this
      ensures Valid() && View() == old(View())[v := Recorded(old(View())[v], Sample(at, value))]
    {
      hide Chunked, Contents;
      ghost var first := View()[v];
      var last := Last(v);
      if last.Some? && last.value.at == at {
        assert View() == View()[v := first];
        return;
      }
      Push(v, Sample(at, value));
      ghost var all := first + [Sample(at, value)];
      ghost var k := 0;
      LenIsContents(v);
      while Len(v) > LIMIT
        invariant Valid() && v in live && 0 <= k <= |all| && Len(v) == |all| - k
        invariant View() == old(View())[v := all[k..]] && (k == 0 || |all| - k >= LIMIT)
        decreases |all| - k
      {
        PopFront(v);
        k := k + 1;
        LenIsContents(v);
      }
    }

    lemma LenIsContents(v: nat)
      requires Valid() && v in live
      ensures |View()[v]| == live[v].len
    {
      hide Chunked, Contents;
      ContentsLength(cells, live[v]);
    }
  }

  const LIMIT: nat := 600

  /** A series after one more reading: the newest 600 samples, without immediate repeats of a timestamp. */
  function Recorded(s: seq<Sample>, x: Sample): seq<Sample> {
    if s != [] && s[|s| - 1].at == x.at then s
    else
      var all := s + [x];
      if |all| <= LIMIT then all else all[|all| - LIMIT..]
  }

  /** What a series keeps of a run of readings. */
  function RecordAll(s: seq<Sample>, xs: seq<Sample>): seq<Sample> {
    if xs == [] then s else Recorded(RecordAll(s, xs[..|xs| - 1]), xs[|xs| - 1])
  }

  /** A run of readings without the immediate repeats of a timestamp. */
  function Deduplicated(xs: seq<Sample>): seq<Sample> {
    if xs == [] then []
    else Followed(Deduplicated(xs[..|xs| - 1]), xs[|xs| - 1])
  }

  function Newest(s: seq<Sample>): seq<Sample> { if |s| <= LIMIT then s else s[|s| - LIMIT..] }

  /** One more reading. */
  function Followed(d: seq<Sample>, x: Sample): seq<Sample> { if d != [] && d[|d| - 1].at == x.at then d else d + [x] }

  lemma RecordedNewest(d: seq<Sample>, x: Sample)
    ensures Recorded(Newest(d), x) == Newest(Followed(d, x))
  {
    var s := Newest(d);
    assert s == [] <==> d == [];
    assert s != [] ==> s[|s| - 1] == d[|d| - 1];
  }

  lemma FollowedLast(d: seq<Sample>, x: Sample)
    ensures Followed(d, x) != [] && Followed(d, x)[|Followed(d, x)| - 1].at == x.at
  {
  }

  lemma DeduplicatedLast(xs: seq<Sample>)
    requires xs != []
    ensures var d := Deduplicated(xs); d != [] && d[|d| - 1].at == xs[|xs| - 1].at
  {
    hide Followed;
    FollowedLast(Deduplicated(xs[..|xs| - 1]), xs[|xs| - 1]);
  }

  lemma DeduplicatedSnoc(xs: seq<Sample>, x: Sample)
    ensures Deduplicated(xs + [x]) == Followed(Deduplicated(xs), x)
  {
    hide Followed;
    assert (xs + [x])[..|xs|] == xs;
  }

  /** A reading is dropped exactly if it has the time of the reading before it. */
  lemma DeduplicatedNext(xs: seq<Sample>, x: Sample)
    ensures Deduplicated([]) == []
    ensures Deduplicated(xs + [x]) == Deduplicated(xs) + if xs != [] && xs[|xs| - 1].at == x.at then [] else [x]
  {
    DeduplicatedSnoc(xs, x);
    if xs != [] { DeduplicatedLast(xs); }
    assert Deduplicated([]) == [];
    hide Deduplicated;
    assert Deduplicated(xs) + [] == Deduplicated(xs);
  }

  /** Over a whole run a series is the newest 600 of the deduplicated readings. */
  lemma {:induction false} RecordAllKeepsNewest(xs: seq<Sample>)
    ensures RecordAll([], xs) == Newest(Deduplicated(xs))
    ensures var d := Deduplicated(xs); RecordAll([], xs) == d[if |d| > 600 then |d| - 600 else 0..]
  {
    NewestOf(Deduplicated(xs));
    hide Recorded, Newest;
    if xs != [] {
      RecordAllKeepsNewest(xs[..|xs| - 1]);
      RecordedNewest(Deduplicated(xs[..|xs| - 1]), xs[|xs| - 1]);
    } else {
      NewestNone();
    }
  }

  lemma NewestOf(d: seq<Sample>)
    ensures Newest(d) == d[if |d| > 600 then |d| - 600 else 0..]
  {
  }

  lemma NewestNone()
    ensures Newest([]) == []
  {
  }
}
