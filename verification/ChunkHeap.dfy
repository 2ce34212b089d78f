/**
  The chunk heap of copy-on-write histories: versions share immutable chunks of 32 samples, and a
  chunk is written in place only by its sole holder.
 */
module ChunkHeap {
  import opened Wrappers

  /** A floating-point reading, up to rounding; window slots keep only finite ones. */
  datatype Reading = Finite(v: real) | Infinite(positive: bool) | NotANumber

  datatype Sample = Sample(at: nat, value: Option<Reading>)

  const CHUNK: nat := 32

  /** One version: its chunks by address, the samples dropped from the first, its length. */
  datatype Handle = Handle(chunks: seq<nat>, offset: nat, len: nat)

  type Cells = map<nat, seq<Sample>>

  /** The samples of a list of chunks. */
  function Joined(cells: Cells, cs: seq<nat>): seq<Sample>
    requires forall c :: c in cs ==> c in cells
  {
    if cs == [] then [] else Joined(cells, cs[..|cs| - 1]) + cells[cs[|cs| - 1]]
  }

  predicate Distinct(cs: seq<nat>) { forall i, j :: 0 <= i < j < |cs| ==> cs[i] != cs[j] }

  /** Full chunks up to the last, which is not empty; only the first may have dropped samples. */
  predicate Chunked(cells: Cells, h: Handle) {
    && Distinct(h.chunks)
    && (forall c :: c in h.chunks ==> c in cells)
    && (forall i :: 0 <= i < |h.chunks| - 1 ==> |cells[h.chunks[i]]| == CHUNK)
    && (h.chunks == [] ==> h.offset == 0 && h.len == 0)
    && (h.chunks != [] ==>
         && 0 < |cells[h.chunks[|h.chunks| - 1]]| <= CHUNK
         && h.offset < |cells[h.chunks[0]]|
         && h.len == CHUNK * (|h.chunks| - 1) + |cells[h.chunks[|h.chunks| - 1]]| - h.offset)
  }

  lemma {:induction false} JoinedLength(cells: Cells, cs: seq<nat>)
    requires forall c :: c in cs ==> c in cells
    requires forall i :: 0 <= i < |cs| - 1 ==> |cells[cs[i]]| == CHUNK
    ensures |Joined(cells, cs)| == if cs == [] then 0 else CHUNK * (|cs| - 1) + |cells[cs[|cs| - 1]]|
  {
    if cs == [] {
    } else {
      var init := cs[..|cs| - 1];
      JoinedLength(cells, init);
      if init != [] { assert init[|init| - 1] == cs[|cs| - 2]; }
    }
  }

  /** What a version holds. */
  function Contents(cells: Cells, h: Handle): (s: seq<Sample>)
    requires Chunked(cells, h)
    ensures |s| == h.len
  {
    JoinedLength(cells, h.chunks);
    Joined(cells, h.chunks)[h.offset..]
  }

  lemma {:induction false} JoinedIndex(cells: Cells, cs: seq<nat>, k: nat)
    requires forall c :: c in cs ==> c in cells
    requires forall i :: 0 <= i < |cs| - 1 ==> |cells[cs[i]]| == CHUNK
    requires k < |Joined(cells, cs)| && cs != [] && |cells[cs[|cs| - 1]]| <= CHUNK
    ensures k / CHUNK < |cs| && k % CHUNK < |cells[cs[k / CHUNK]]|
    ensures Joined(cells, cs)[k] == cells[cs[k / CHUNK]][k % CHUNK]
  {
    var init := cs[..|cs| - 1];
    JoinedLength(cells, cs);
    JoinedLength(cells, init);
    if init != [] { assert init[|init| - 1] == cs[|cs| - 2]; }
    if k < CHUNK * (|cs| - 1) {
      assert k / CHUNK < |cs| - 1;
      JoinedIndex(cells, init, k);
      assert init[k / CHUNK] == cs[k / CHUNK];
    } else {
      assert k / CHUNK == |cs| - 1 && k % CHUNK == k - CHUNK * (|cs| - 1);
    }
  }

  lemma {:induction false} JoinedSame(a: Cells, b: Cells, cs: seq<nat>)
    requires forall c :: c in cs ==> c in a && c in b && a[c] == b[c]
    ensures Joined(a, cs) == Joined(b, cs)
  {
    if cs == [] {
    } else {
      JoinedSame(a, b, cs[..|cs| - 1]);
    }
  }

  lemma {:induction false} JoinedConcat(cells: Cells, a: seq<nat>, b: seq<nat>)
    requires forall c :: c in a || c in b ==> c in cells
    ensures forall c :: c in a + b ==> c in cells
    ensures Joined(cells, a + b) == Joined(cells, a) + Joined(cells, b)
  {
    if b == [] { assert a + b == a; } else {
      assert (a + b)[..|a + b| - 1] == a + b[..|b| - 1];
      JoinedConcat(cells, a, b[..|b| - 1]);
    }
  }

  // ---- Reference counts ----

  /** The versions that hold a chunk. */
  ghost function Holders(live: map<nat, Handle>, c: nat): set<nat> {
    set v | v in live && c in live[v].chunks
  }

  lemma HoldersDrop(live: map<nat, Handle>, v: nat, c: nat)
    requires v in live
    ensures |Holders(live - {v}, c)| == |Holders(live, c)| - if c in live[v].chunks then 1 else 0
  {
    if c in live[v].chunks {
      assert Holders(live, c) == Holders(live - {v}, c) + {v};
    } else {
      assert Holders(live, c) == Holders(live - {v}, c);
    }
  }

  lemma HoldersAdd(live: map<nat, Handle>, v: nat, g: Handle, c: nat)
    requires v !in live
    ensures |Holders(live[v := g], c)| == |Holders(live, c)| + if c in g.chunks then 1 else 0
  {
    if c in g.chunks {
      assert Holders(live[v := g], c) == Holders(live, c) + {v};
    } else {
      assert Holders(live[v := g], c) == Holders(live, c);
    }
  }

  /** Rebinding a version moves its references and no other's. */
  lemma HoldersRebind(live: map<nat, Handle>, v: nat, g: Handle, c: nat)
    requires v in live
    ensures |Holders(live[v := g], c)| ==
            |Holders(live, c)| - (if c in live[v].chunks then 1 else 0) + if c in g.chunks then 1 else 0
  {
    HoldersDrop(live, v, c);
    HoldersAdd(live - {v}, v, g, c);
    assert live[v := g] == (live - {v})[v := g];
  }

  /** A count of one means nobody else can see the chunk. */
  lemma SoleHolder(live: map<nat, Handle>, v: nat, c: nat)
    requires v in live && c in live[v].chunks && |Holders(live, c)| == 1
    ensures forall w :: w in live && w != v ==> c !in live[w].chunks
  {
    var s := Holders(live, c);
    assert |s - {v}| == 0;
    assert s == (s - {v}) + {v};
    forall w | w in live && w != v ensures c !in live[w].chunks {
      assert w !in s;
    }
  }

  /** Counts are exact, nothing unreferenced stays allocated, every version is well chunked. */
  ghost predicate Coherent(cells: Cells, strong: map<nat, nat>, live: map<nat, Handle>) {
    && strong.Keys == cells.Keys
    && (forall c :: c in cells ==> strong[c] == |Holders(live, c)| > 0)
    && (forall v :: v in live ==> Chunked(cells, live[v]))
  }

  ghost function ViewOf(cells: Cells, live: map<nat, Handle>): (m: map<nat, seq<Sample>>)
    requires forall v :: v in live ==> Chunked(cells, live[v])
    ensures m.Keys == live.Keys
  {
    map v | v in live :: Contents(cells, live[v])
  }

  lemma ContentsSame(a: Cells, b: Cells, h: Handle)
    requires Chunked(a, h)
    requires forall c :: c in h.chunks ==> c in b && b[c] == a[c]
    ensures Chunked(b, h) && Contents(b, h) == Contents(a, h)
  {
    assert h.chunks != [] ==> h.chunks[0] in h.chunks && h.chunks[|h.chunks| - 1] in h.chunks;
    JoinedSame(a, b, h.chunks);
  }

  /** A chunk with another holder than v is not one v may free or overwrite. */
  ghost predicate Untouched(a: Cells, b: Cells, live: map<nat, Handle>, v: nat) {
    forall w, c :: w in live && w != v && c in live[w].chunks ==> c in a && c in b && b[c] == a[c]
  }

  lemma ChunksAllocated(cells: Cells, h: Handle)
    requires Chunked(cells, h)
    ensures forall c :: c in h.chunks ==> c in cells
  {
  }

  lemma OthersSame(a: Cells, b: Cells, live: map<nat, Handle>, v: nat)
    requires forall w :: w in live && w != v ==> Chunked(a, live[w])
    requires Untouched(a, b, live, v)
    ensures forall w :: w in live && w != v ==> Chunked(b, live[w]) && Contents(b, live[w]) == Contents(a, live[w])
  {
    forall w | w in live && w != v ensures Chunked(b, live[w]) && Contents(b, live[w]) == Contents(a, live[w]) {
      ContentsSame(a, b, live[w]);
    }
  }

  /** Changing one version's handle, with the counts to match, leaves every other version as it was. */
  lemma Rebound(a: Cells, b: Cells, strong: map<nat, nat>, live: map<nat, Handle>, v: nat, g: Handle)
    requires forall w :: w in live ==> Chunked(a, live[w])
    requires v in live && Untouched(a, b, live, v) && Chunked(b, g)
    requires strong.Keys == b.Keys && forall c :: c in b ==> strong[c] == |Holders(live[v := g], c)| > 0
    ensures Coherent(b, strong, live[v := g])
    ensures ViewOf(b, live[v := g]) == ViewOf(a, live)[v := Contents(b, g)]
  {
    OthersSame(a, b, live, v);
    assert Coherent(b, strong, live[v := g]);
    ReboundView(a, b, live, v, g);
  }

  lemma ReboundView(a: Cells, b: Cells, live: map<nat, Handle>, v: nat, g: Handle)
    requires forall w :: w in live ==> Chunked(a, live[w])
    requires forall w :: w in live && w != v ==> Chunked(b, live[w]) && Contents(b, live[w]) == Contents(a, live[w])
    requires v in live && Chunked(b, g)
    ensures ViewOf(b, live[v := g]) == ViewOf(a, live)[v := Contents(b, g)]
  {
    hide Chunked, Contents;
    var x, y := ViewOf(b, live[v := g]), ViewOf(a, live)[v := Contents(b, g)];
    assert x.Keys == y.Keys;
    forall w | w in x ensures x[w] == y[w] {
      if w == v { assert x[w] == Contents(b, g); } else { assert x[w] == Contents(b, live[w]); }
    }
  }

  lemma Unbound(a: Cells, b: Cells, strong: map<nat, nat>, live: map<nat, Handle>, v: nat)
    requires forall w :: w in live ==> Chunked(a, live[w])
    requires v in live && Untouched(a, b, live, v)
    requires strong.Keys == b.Keys && forall c :: c in b ==> strong[c] == |Holders(live - {v}, c)| > 0
    ensures Coherent(b, strong, live - {v})
    ensures ViewOf(b, live - {v}) == ViewOf(a, live) - {v}
  {
    OthersSame(a, b, live, v);
    UnboundView(a, b, live, v);
  }

  lemma UnboundView(a: Cells, b: Cells, live: map<nat, Handle>, v: nat)
    requires forall w :: w in live ==> Chunked(a, live[w])
    requires forall w :: w in live && w != v ==> Chunked(b, live[w]) && Contents(b, live[w]) == Contents(a, live[w])
    requires v in live
    ensures ViewOf(b, live - {v}) == ViewOf(a, live) - {v}
  {
    hide Chunked, Contents;
  }

  // ---- Moving references ----

  function Held(cs: seq<nat>, c: nat): int { if c in cs then 1 else 0 }

  function Count(strong: map<nat, nat>, c: nat): int { if c in strong then strong[c] else 0 }

  /** Counts after references to the old chunks are released and to the new ones taken; zero frees. */
  function Moved(strong: map<nat, nat>, before: seq<nat>, after: seq<nat>): map<nat, nat> {
    map c | c in strong.Keys + (set x | x in after) && Count(strong, c) - Held(before, c) + Held(after, c) > 0 ::
      Count(strong, c) - Held(before, c) + Held(after, c)
  }

  /** The moved counts are the holders of the rebound version. */
  lemma MovedHolders(cells: Cells, strong: map<nat, nat>, live: map<nat, Handle>, v: nat, g: Handle, c: nat)
    requires Coherent(cells, strong, live) && v in live
    ensures Count(strong, c) - Held(live[v].chunks, c) + Held(g.chunks, c) == |Holders(live[v := g], c)|
    ensures Count(strong, c) - Held(live[v].chunks, c) == |Holders(live - {v}, c)|
  {
    hide Chunked;
    HoldersRebind(live, v, g, c);
    HoldersDrop(live, v, c);
    if c !in cells { Unheld(cells, strong, live, c); }
  }

  lemma Unheld(cells: Cells, strong: map<nat, nat>, live: map<nat, Handle>, c: nat)
    requires Coherent(cells, strong, live) && c !in cells
    ensures Holders(live, c) == {}
  {
  }

  /** Sole ownership, in the form in which a write or a release relies on it. */
  lemma OthersDoNotHold(cells: Cells, strong: map<nat, nat>, live: map<nat, Handle>, v: nat, c: nat, w: nat)
    requires Coherent(cells, strong, live) && v in live && c in live[v].chunks && Count(strong, c) == 1
    requires w in live && w != v
    ensures c !in live[w].chunks
  {
    hide Contents;
    ChunksAllocated(cells, live[v]);
    SoleHolder(live, v, c);
  }

  /** Rebinding one version with its references moved keeps all counts exact and all other versions as they were. */
  lemma Rebinding(a: Cells, b: Cells, strong: map<nat, nat>, live: map<nat, Handle>, v: nat, g: Handle)
    requires Coherent(a, strong, live) && v in live && Chunked(b, g) && Untouched(a, b, live, v)
    requires b.Keys == Moved(strong, live[v].chunks, g.chunks).Keys
    ensures Coherent(b, Moved(strong, live[v].chunks, g.chunks), live[v := g])
    ensures ViewOf(b, live[v := g]) == ViewOf(a, live)[v := Contents(b, g)]
  {
    hide Chunked, Contents;
    var moved := Moved(strong, live[v].chunks, g.chunks);
    forall c | c in b ensures moved[c] == |Holders(live[v := g], c)| > 0 {
      MovedHolders(a, strong, live, v, g, c);
      assert c in moved;
    }
    Rebound(a, b, moved, live, v, g);
  }

  lemma Unbinding(a: Cells, b: Cells, strong: map<nat, nat>, live: map<nat, Handle>, v: nat)
    requires Coherent(a, strong, live) && v in live && Untouched(a, b, live, v)
    requires b.Keys == Moved(strong, live[v].chunks, []).Keys
    ensures Coherent(b, Moved(strong, live[v].chunks, []), live - {v})
    ensures ViewOf(b, live - {v}) == ViewOf(a, live) - {v}
  {
    hide Chunked, Contents;
    var moved := Moved(strong, live[v].chunks, []);
    forall c | c in b ensures moved[c] == |Holders(live - {v}, c)| > 0 {
      MovedHolders(a, strong, live, v, Handle([], 0, 0), c);
      assert c in moved;
    }
    Unbound(a, b, moved, live, v);
  }

  /** Releasing a version's chunks frees only what nobody else holds. */
  lemma ReleaseUntouched(a: Cells, strong: map<nat, nat>, live: map<nat, Handle>, v: nat, after: seq<nat>, b: Cells)
    requires Coherent(a, strong, live) && v in live
    requires forall c :: c in a && c in Moved(strong, live[v].chunks, after) && c !in live[v].chunks ==>
             c in b && b[c] == a[c]
    requires forall c :: c in live[v].chunks && Count(strong, c) > 1 ==> c in b && c in a && b[c] == a[c]
    ensures Untouched(a, b, live, v)
  {
    forall w, c | w in live && w != v && c in live[w].chunks ensures c in a && c in b && b[c] == a[c] {
      ChunksAllocated(a, live[w]);
      hide Chunked;
      if c in live[v].chunks && Count(strong, c) <= 1 {
        OthersDoNotHold(a, strong, live, v, c, w);
      }
    }
  }

  // ---- Pushing ----

  predicate Full(cells: Cells, h: Handle)
    requires Chunked(cells, h)
  {
    h.chunks == [] || |cells[h.chunks[|h.chunks| - 1]]| == CHUNK
  }

  /** The chunks a push keeps as they are. */
  function Kept(cells: Cells, h: Handle): seq<nat>
    requires Chunked(cells, h)
  {
    if Full(cells, h) then h.chunks else h.chunks[..|h.chunks| - 1]
  }

  /** What the chunk a push appends to holds so far. */
  function Tail(cells: Cells, h: Handle): seq<Sample>
    requires Chunked(cells, h)
  {
    if Full(cells, h) then [] else cells[h.chunks[|h.chunks| - 1]]
  }

  function Pushed(cells: Cells, h: Handle, at: nat): Handle
    requires Chunked(cells, h)
  {
    Handle(Kept(cells, h) + [at], h.offset, h.len + 1)
  }

  lemma ViewAt(cells: Cells, live: map<nat, Handle>, v: nat)
    requires v in live && forall w :: w in live ==> Chunked(cells, live[w])
    ensures ViewOf(cells, live)[v] == Contents(cells, live[v])
  {
    hide Chunked, Contents;
  }

  lemma PushJoined(a: Cells, b: Cells, h: Handle, at: nat, s: Sample)
    requires Chunked(a, h)
    requires forall c :: c in Kept(a, h) ==> c in b && b[c] == a[c]
    requires at in b && b[at] == Tail(a, h) + [s]
    ensures Joined(b, Kept(a, h) + [at]) == Joined(a, h.chunks) + [s]
  {
    hide Chunked, Kept, Tail;
    var kept := Kept(a, h);
    JoinedKept(a, h);
    JoinedSame(a, b, kept);
    JoinedSnoc(b, kept, at);
    hide Joined;
    assert Joined(a, kept) + (Tail(a, h) + [s]) == Joined(a, kept) + Tail(a, h) + [s];
  }

  lemma JoinedSnoc(cells: Cells, cs: seq<nat>, at: nat)
    requires at in cells && forall c :: c in cs ==> c in cells
    ensures Joined(cells, cs + [at]) == Joined(cells, cs) + cells[at]
  {
    assert (cs + [at])[..|cs|] == cs;
  }

  /** A version's samples are those of the kept chunks, then the tail's. */
  lemma JoinedKept(a: Cells, h: Handle)
    requires Chunked(a, h)
    ensures (forall c :: c in Kept(a, h) ==> c in a) && Joined(a, h.chunks) == Joined(a, Kept(a, h)) + Tail(a, h)
  {
    assert forall c :: c in Kept(a, h) ==> c in h.chunks;
  }

  lemma PushShape(a: Cells, b: Cells, h: Handle, at: nat, s: Sample)
    requires Chunked(a, h) && at !in Kept(a, h)
    requires forall c :: c in Kept(a, h) ==> c in b && b[c] == a[c]
    requires at in b && b[at] == Tail(a, h) + [s]
    ensures Chunked(b, Pushed(a, h, at))
  {
    var kept := Kept(a, h);
    assert forall i :: 0 <= i < |kept| ==> kept[i] == h.chunks[i] && kept[i] in kept;
  }

  /** Whatever address the tail ends up at, the version gains exactly the new sample. */
  lemma PushContents(a: Cells, b: Cells, h: Handle, at: nat, s: Sample)
    requires Chunked(a, h) && at !in Kept(a, h)
    requires forall c :: c in Kept(a, h) ==> c in b && b[c] == a[c]
    requires at in b && b[at] == Tail(a, h) + [s]
    ensures Chunked(b, Pushed(a, h, at)) && Contents(b, Pushed(a, h, at)) == Contents(a, h) + [s]
  {
    PushJoined(a, b, h, at, s);
    PushShape(a, b, h, at, s);
    JoinedLength(a, h.chunks);
  }

  /** Where a push may write: a new address, or the tail when this version is its sole holder. */
  predicate Writable(cells: Cells, strong: map<nat, nat>, h: Handle, at: nat)
    requires Chunked(cells, h)
  {
    if at !in cells then Full(cells, h) || Count(strong, h.chunks[|h.chunks| - 1]) > 1
    else !Full(cells, h) && at == h.chunks[|h.chunks| - 1] && Count(strong, at) == 1
  }

  lemma KeptAndLast(cells: Cells, h: Handle, at: nat)
    requires Chunked(cells, h) && (at !in cells || (!Full(cells, h) && at == h.chunks[|h.chunks| - 1]))
    ensures at !in Kept(cells, h)
    ensures forall c :: c in Kept(cells, h) ==> c in h.chunks && c in cells && c != at
    ensures !Full(cells, h) ==> h.chunks == Kept(cells, h) + [h.chunks[|h.chunks| - 1]]
  {
    assert forall c :: c in Kept(cells, h) ==> c in h.chunks;
    assert at in cells ==> forall i :: 0 <= i < |Kept(cells, h)| ==> Kept(cells, h)[i] != at;
  }

  lemma PushUntouched(a: Cells, strong: map<nat, nat>, live: map<nat, Handle>, v: nat, at: nat, tail: seq<Sample>)
    requires Coherent(a, strong, live) && v in live && Writable(a, strong, live[v], at)
    ensures Untouched(a, a[at := tail], live, v)
  {
    forall w, c | w in live && w != v && c in live[w].chunks ensures c in a && a[at := tail][c] == a[c] {
      ChunksAllocated(a, live[w]);
      if at in a {
        assert live[v].chunks[|live[v].chunks| - 1] in live[v].chunks;
        OthersDoNotHold(a, strong, live, v, at, w);
      }
    }
  }

  /** Only the written chunk and the replaced tail change their counts. */
  lemma MovedTail(strong: map<nat, nat>, kept: seq<nat>, last: seq<nat>, at: nat)
    requires |last| <= 1 && forall c :: c in kept + last ==> c in strong
    requires forall c :: c in kept ==> c != at && c !in last
    requires forall c :: c in strong ==> strong[c] > 0
    requires if at in strong then last == [at] else last == [] || strong[last[0]] > 1
    ensures Moved(strong, kept + last, kept + [at]) ==
            if at in strong then strong
            else if last == [] then strong[at := 1]
            else strong[at := 1][last[0] := strong[last[0]] - 1]
  {
    var before, after := kept + last, kept + [at];
    assert forall c :: Held(after, c) == Held(kept, c) + if c == at then 1 else 0;
    assert forall c :: Held(before, c) == Held(kept, c) + Held(last, c);
    assert forall c :: Held(last, c) == if last != [] && c == last[0] then 1 else 0;
    var moved := Moved(strong, before, after);
    assert moved.Keys == strong.Keys + {at};
  }

  lemma PushMoved(a: Cells, strong: map<nat, nat>, live: map<nat, Handle>, v: nat, at: nat)
    requires Coherent(a, strong, live) && v in live && Writable(a, strong, live[v], at)
    ensures var h := live[v];
            && Moved(strong, h.chunks, Kept(a, h) + [at]).Keys == a.Keys + {at}
            && Moved(strong, h.chunks, Kept(a, h) + [at]) ==
               if at in a then strong
               else if Full(a, h) then strong[at := 1]
               else strong[at := 1][h.chunks[|h.chunks| - 1] := strong[h.chunks[|h.chunks| - 1]] - 1]
  {
    var h := live[v];
    KeptAndLast(a, h, at);
    ChunksAllocated(a, h);
    LastOnce(a, h);
    hide Chunked;
    var last := if Full(a, h) then [] else [h.chunks[|h.chunks| - 1]];
    assert h.chunks == Kept(a, h) + last;
    MovedTail(strong, Kept(a, h), last, at);
  }

  lemma LastOnce(cells: Cells, h: Handle)
    requires Chunked(cells, h)
    ensures !Full(cells, h) ==> h.chunks[|h.chunks| - 1] !in Kept(cells, h)
  {
  }

  lemma PushKeeps(a: Cells, strong: map<nat, nat>, live: map<nat, Handle>, v: nat, h: Handle, at: nat, s: Sample,
                  b: Cells, g: Handle)
    requires Coherent(a, strong, live) && v in live && h == live[v] && Writable(a, strong, h, at)
    requires b == a[at := Tail(a, h) + [s]] && g == Pushed(a, h, at)
    ensures Coherent(b, Moved(strong, h.chunks, g.chunks), live[v := g])
    ensures ViewOf(b, live[v := g]) == ViewOf(a, live)[v := Contents(a, h) + [s]]
  {
    hide Chunked, Contents, Kept, Tail, Untouched, Moved;
    KeptAndLast(a, h, at);
    PushContents(a, b, h, at, s);
    PushMoved(a, strong, live, v, at);
    PushUntouched(a, strong, live, v, at, Tail(a, h) + [s]);
    Rebinding(a, b, strong, live, v, g);
  }

  // ---- Dropping the oldest sample ----

  function Popped(cells: Cells, h: Handle): Handle
    requires Chunked(cells, h) && h.len > 0
  {
    if h.offset + 1 == |cells[h.chunks[0]]| then Handle(h.chunks[1..], 0, h.len - 1)
    else Handle(h.chunks, h.offset + 1, h.len - 1)
  }

  lemma PopShape(cells: Cells, h: Handle)
    requires Chunked(cells, h) && h.len > 0
    ensures Chunked(cells, Popped(cells, h))
  {
    var rest := h.chunks[1..];
    assert rest != [] ==> rest[0] == h.chunks[1] && rest[|rest| - 1] == h.chunks[|h.chunks| - 1];
    assert forall i :: 0 <= i < |rest| ==> rest[i] == h.chunks[i + 1];
  }

  lemma PopContents(cells: Cells, h: Handle)
    requires Chunked(cells, h) && h.len > 0
    ensures Chunked(cells, Popped(cells, h)) && Contents(cells, Popped(cells, h)) == Contents(cells, h)[1..]
  {
    PopShape(cells, h);
    JoinedLength(cells, h.chunks);
    if h.offset + 1 == |cells[h.chunks[0]]| {
      var first: seq<nat> := [h.chunks[0]];
      assert h.chunks == first + h.chunks[1..];
      JoinedConcat(cells, first, h.chunks[1..]);
      assert first[..0] == [] && Joined(cells, first) == cells[h.chunks[0]];
    }
  }

  // ---- Rewriting one chunk of a version ----

  /** The version with chunk i at another address. */
  function WithChunkAt(h: Handle, i: nat, at: nat): Handle
    requires i < |h.chunks|
  {
    Handle(h.chunks[i := at], h.offset, h.len)
  }

  /** The slot of a version's sample. */
  lemma ContentsIndex(cells: Cells, h: Handle, j: nat)
    requires Chunked(cells, h) && j < h.len
    ensures var k := j + h.offset;
            && k / CHUNK < |h.chunks| && k % CHUNK < |cells[h.chunks[k / CHUNK]]|
            && Contents(cells, h)[j] == cells[h.chunks[k / CHUNK]][k % CHUNK]
  {
    JoinedLength(cells, h.chunks);
    JoinedIndex(cells, h.chunks, j + h.offset);
  }

  lemma RewriteShape(a: Cells, b: Cells, h: Handle, i: nat, at: nat)
    requires Chunked(a, h) && i < |h.chunks|
    requires at == h.chunks[i] || at !in h.chunks
    requires at in b && |b[at]| == |a[h.chunks[i]]|
    requires forall c :: c in h.chunks && c != h.chunks[i] ==> c in b && b[c] == a[c]
    ensures Chunked(b, WithChunkAt(h, i, at))
  {
    var g := h.chunks[i := at];
    forall k | 0 <= k < |g| ensures g[k] in b && |b[g[k]]| == |a[h.chunks[k]]| {
      if k != i { assert h.chunks[k] in h.chunks && h.chunks[k] != h.chunks[i]; }
    }
    assert g != [] ==> g[|g| - 1] in b;
  }

  /** Rewriting chunk i changes exactly the samples stored in it. */
  lemma RewriteContents(a: Cells, b: Cells, h: Handle, i: nat, at: nat, j: nat)
    requires Chunked(a, h) && i < |h.chunks| && Chunked(b, WithChunkAt(h, i, at)) && j < h.len
    requires at in b && |b[at]| == |a[h.chunks[i]]|
    requires forall c :: c in h.chunks && c != h.chunks[i] ==> c in b && b[c] == a[c]
    ensures (j + h.offset) / CHUNK == i ==> (j + h.offset) % CHUNK < |b[at]|
    ensures Contents(b, WithChunkAt(h, i, at))[j] ==
            if (j + h.offset) / CHUNK == i then b[at][(j + h.offset) % CHUNK] else Contents(a, h)[j]
  {
    ContentsIndex(a, h, j);
    ContentsIndex(b, WithChunkAt(h, i, at), j);
    var k := (j + h.offset) / CHUNK;
    if k != i { assert h.chunks[k] in h.chunks && h.chunks[k] != h.chunks[i]; }
  }

  /** A chunk is rewritten in place by its sole holder, and at a new address otherwise. */
  predicate Rewritable(cells: Cells, strong: map<nat, nat>, h: Handle, i: nat, at: nat)
    requires i < |h.chunks|
  {
    if at == h.chunks[i] then Count(strong, at) == 1 else at !in cells && Count(strong, h.chunks[i]) > 1
  }

  lemma RewriteMoved(a: Cells, strong: map<nat, nat>, live: map<nat, Handle>, v: nat, i: nat, at: nat)
    requires Coherent(a, strong, live) && v in live && i < |live[v].chunks| && Rewritable(a, strong, live[v], i, at)
    ensures var from := live[v].chunks[i];
            && from in a
            && Moved(strong, live[v].chunks, live[v].chunks[i := at]).Keys == a.Keys + {at}
            && Moved(strong, live[v].chunks, live[v].chunks[i := at]) ==
               if at == from then strong else strong[at := 1][from := strong[from] - 1]
  {
    hide Chunked;
    var h := live[v];
    ChunksAllocated(a, h);
    OthersInPlace(a, h, i, at);
    MovedSlot(strong, h.chunks, h.chunks[i := at], h.chunks[i], at);
  }

  lemma MovedSlot(strong: map<nat, nat>, before: seq<nat>, after: seq<nat>, from: nat, at: nat)
    requires from in before && at in after && forall c :: c in before ==> c in strong
    requires forall c :: c in strong ==> strong[c] > 0
    requires forall c :: c != at && c != from ==> (c in before <==> c in after)
    requires at != from ==> at !in before && from !in after && at !in strong && strong[from] > 1
    ensures Moved(strong, before, after) == if at == from then strong else strong[at := 1][from := strong[from] - 1]
  {
    var moved := Moved(strong, before, after);
    assert forall c :: c in after ==> c in strong || c == at;
    assert moved.Keys == strong.Keys + {at};
  }

  lemma OthersInPlace(cells: Cells, h: Handle, i: nat, at: nat)
    requires Chunked(cells, h) && i < |h.chunks| && (at == h.chunks[i] || at !in cells)
    ensures h.chunks[i] in h.chunks && at in h.chunks[i := at]
    ensures forall c :: c != at && c != h.chunks[i] ==> (c in h.chunks <==> c in h.chunks[i := at])
    ensures at != h.chunks[i] ==> at !in h.chunks && h.chunks[i] !in h.chunks[i := at]
  {
    var g := h.chunks[i := at];
    assert g[i] == at;
    assert forall k :: 0 <= k < |g| && k != i ==> g[k] == h.chunks[k] && g[k] in h.chunks;
    forall c | c != at && c != h.chunks[i] && c in h.chunks ensures c in g {
      var k :| 0 <= k < |g| && h.chunks[k] == c;
      assert g[k] == c;
    }
  }

  lemma RewriteUntouchedBy(a: Cells, strong: map<nat, nat>, live: map<nat, Handle>, v: nat, i: nat, at: nat,
                           data: seq<Sample>, w: nat, c: nat)
    requires Coherent(a, strong, live) && v in live && i < |live[v].chunks| && Rewritable(a, strong, live[v], i, at)
    requires w in live && w != v && c in live[w].chunks
    ensures c in a && a[at := data][c] == a[c]
  {
    ChunksAllocated(a, live[w]);
    if at == live[v].chunks[i] { OthersDoNotHold(a, strong, live, v, at, w); }
  }

  lemma RewriteUntouched(a: Cells, strong: map<nat, nat>, live: map<nat, Handle>, v: nat, i: nat, at: nat,
                         data: seq<Sample>)
    requires Coherent(a, strong, live) && v in live && i < |live[v].chunks| && Rewritable(a, strong, live[v], i, at)
    ensures Untouched(a, a[at := data], live, v)
  {
    hide Coherent, Rewritable;
    forall w, c | w in live && w != v && c in live[w].chunks ensures c in a && a[at := data][c] == a[c] {
      RewriteUntouchedBy(a, strong, live, v, i, at, data, w, c);
    }
  }

  lemma RewriteKeeps(a: Cells, strong: map<nat, nat>, live: map<nat, Handle>, v: nat, h: Handle, i: nat, at: nat,
                     data: seq<Sample>)
    requires Coherent(a, strong, live) && v in live && h == live[v] && i < |h.chunks| && Rewritable(a, strong, h, i, at)
    requires h.chunks[i] in a && |data| == |a[h.chunks[i]]|
    ensures var g := WithChunkAt(h, i, at);
            && Chunked(a[at := data], g)
            && Coherent(a[at := data], Moved(strong, h.chunks, g.chunks), live[v := g])
            && ViewOf(a[at := data], live[v := g]) == ViewOf(a, live)[v := Contents(a[at := data], g)]
  {
    hide Chunked, Contents, Untouched, Moved;
    ChunksAllocated(a, h);
    RewriteShape(a, a[at := data], h, i, at);
    RewriteMoved(a, strong, live, v, i, at);
    RewriteUntouched(a, strong, live, v, i, at, data);
    Rebinding(a, a[at := data], strong, live, v, WithChunkAt(h, i, at));
  }

  // ---- Facts the operations rely on ----

  lemma ContentsLength(cells: Cells, h: Handle)
    requires Chunked(cells, h)
    ensures |Contents(cells, h)| == h.len
  {
  }

  lemma FirstAllocated(cells: Cells, h: Handle)
    requires Chunked(cells, h) && h.len > 0
    ensures h.chunks != [] && h.chunks[0] in h.chunks && h.chunks[0] in cells && h.chunks[0] !in h.chunks[1..]
  {
  }

  lemma MovedNone(strong: map<nat, nat>, cs: seq<nat>)
    requires forall c :: c in strong ==> strong[c] > 0
    requires forall c :: c in cs ==> c in strong
    ensures Moved(strong, cs, cs) == strong
  {
  }

  /** Skipping one more sample of the first chunk touches no chunk. */
  lemma OffsetKeeps(a: Cells, strong: map<nat, nat>, live: map<nat, Handle>, v: nat, h: Handle)
    requires Coherent(a, strong, live) && v in live && h == live[v] && h.len > 0 && h.chunks != []
    requires h.chunks[0] in a && h.offset + 1 != |a[h.chunks[0]]|
    ensures Coherent(a, strong, live[v := Popped(a, h)])
    ensures ViewOf(a, live[v := Popped(a, h)]) == ViewOf(a, live)[v := Contents(a, h)[1..]]
  {
    hide Chunked, Contents, Untouched, Moved;
    ChunksAllocated(a, h);
    PopContents(a, h);
    MovedNone(strong, h.chunks);
    SameUntouched(a, strong, live, v);
    Rebinding(a, a, strong, live, v, Popped(a, h));
  }

  lemma SameUntouched(a: Cells, strong: map<nat, nat>, live: map<nat, Handle>, v: nat)
    requires Coherent(a, strong, live)
    ensures Untouched(a, a, live, v)
  {
    hide Chunked;
    forall w, c | w in live && w != v && c in live[w].chunks ensures c in a { ChunksAllocated(a, live[w]); }
  }

  /** Releasing the first chunk of a version. */
  lemma PopKeeps(a: Cells, strong: map<nat, nat>, live: map<nat, Handle>, v: nat, h: Handle, b: Cells,
                 after: map<nat, nat>)
    requires Coherent(a, strong, live) && v in live && h == live[v] && h.len > 0 && h.chunks != []
    requires h.chunks[0] in a && h.chunks[0] in strong
    requires h.offset + 1 == |a[h.chunks[0]]|
    requires b == if strong[h.chunks[0]] == 1 then a - {h.chunks[0]} else a
    requires after == if strong[h.chunks[0]] == 1 then strong - {h.chunks[0]}
                      else strong[h.chunks[0] := strong[h.chunks[0]] - 1]
    ensures Coherent(b, after, live[v := Popped(a, h)])
    ensures ViewOf(b, live[v := Popped(a, h)]) == ViewOf(a, live)[v := Contents(a, h)[1..]]
  {
    hide Chunked, Contents, Untouched, Moved;
    var g := Popped(a, h);
    FirstAllocated(a, h);
    ChunksAllocated(a, h);
    PopContents(a, h);
    PopMoved(strong, h.chunks);
    PopUntouched(a, strong, live, v, h, b);
    ContentsSame(a, b, g);
    Rebinding(a, b, strong, live, v, g);
  }

  lemma PopMoved(strong: map<nat, nat>, cs: seq<nat>)
    requires cs != [] && cs[0] !in cs[1..] && forall c :: c in cs ==> c in strong
    requires forall c :: c in strong ==> strong[c] > 0
    ensures Moved(strong, cs, cs[1..]) ==
            if strong[cs[0]] == 1 then strong - {cs[0]} else strong[cs[0] := strong[cs[0]] - 1]
  {
    assert cs == [cs[0]] + cs[1..];
    assert forall c :: Held(cs, c) == Held(cs[1..], c) + if c == cs[0] then 1 else 0;
    var moved := Moved(strong, cs, cs[1..]);
    assert moved.Keys == if strong[cs[0]] == 1 then strong.Keys - {cs[0]} else strong.Keys;
  }

  lemma PopUntouched(a: Cells, strong: map<nat, nat>, live: map<nat, Handle>, v: nat, h: Handle, b: Cells)
    requires Coherent(a, strong, live) && v in live && h == live[v] && h.chunks != [] && h.chunks[0] in strong
    requires b == if strong[h.chunks[0]] == 1 then a - {h.chunks[0]} else a
    ensures Untouched(a, b, live, v)
  {
    hide Chunked, Contents;
    forall w, c | w in live && w != v && c in live[w].chunks ensures c in a && c in b && b[c] == a[c] {
      ChunksAllocated(a, live[w]);
      if c == h.chunks[0] && strong[c] == 1 { OthersDoNotHold(a, strong, live, v, c, w); }
    }
  }

  lemma LastAllocated(cells: Cells, h: Handle)
    requires Chunked(cells, h)
    ensures h.chunks != [] ==> h.chunks[|h.chunks| - 1] in cells
  {
  }

  lemma ContentsLast(cells: Cells, h: Handle)
    requires Chunked(cells, h)
    ensures h.chunks == [] <==> Contents(cells, h) == []
    ensures h.chunks != [] ==>
              && h.chunks[|h.chunks| - 1] in cells
              && cells[h.chunks[|h.chunks| - 1]] != []
              && Contents(cells, h)[h.len - 1] == cells[h.chunks[|h.chunks| - 1]][|cells[h.chunks[|h.chunks| - 1]]| - 1]
  {
    JoinedLength(cells, h.chunks);
    if h.chunks != [] {
      assert Joined(cells, h.chunks)[|Joined(cells, h.chunks)| - 1] ==
             cells[h.chunks[|h.chunks| - 1]][|cells[h.chunks[|h.chunks| - 1]]| - 1];
    }
  }

  lemma CreateKeeps(cells: Cells, strong: map<nat, nat>, live: map<nat, Handle>, v: nat)
    requires Coherent(cells, strong, live) && v !in live
    ensures Coherent(cells, strong, live[v := Handle([], 0, 0)])
    ensures ViewOf(cells, live[v := Handle([], 0, 0)]) == ViewOf(cells, live)[v := []]
  {
    hide Chunked, Contents;
    var empty := Handle([], 0, 0);
    EmptyHandle(cells, empty);
    forall c | c in cells ensures |Holders(live[v := empty], c)| == |Holders(live, c)| {
      HoldersAdd(live, v, empty, c);
    }
  }

  lemma EmptyHandle(cells: Cells, h: Handle)
    requires h == Handle([], 0, 0)
    ensures Chunked(cells, h) && Contents(cells, h) == []
  {
  }

  /** The samples of the first i chunks of a version, without those dropped. */
  function FromOffset(cells: Cells, h: Handle, i: nat): seq<Sample>
    requires i <= |h.chunks| && forall c :: c in h.chunks ==> c in cells
  {
    var s := Joined(cells, h.chunks[..i]);
    if h.offset <= |s| then s[h.offset..] else []
  }

  lemma FromOffsetNext(cells: Cells, h: Handle, i: nat)
    requires Chunked(cells, h) && i < |h.chunks|
    ensures (forall c :: c in h.chunks ==> c in cells) && (i == 0 ==> h.offset <= |cells[h.chunks[0]]|)
    ensures FromOffset(cells, h, i + 1) ==
            FromOffset(cells, h, i) + cells[h.chunks[i]][if i == 0 then h.offset else 0..]
  {
    var s := h.chunks[..i];
    assert h.chunks[..i + 1][..i] == s;
    JoinedLength(cells, s);
    if i > 0 { assert s[|s| - 1] == h.chunks[i - 1] && |cells[h.chunks[0]]| <= CHUNK; }
  }

  lemma FromOffsetAll(cells: Cells, h: Handle)
    requires Chunked(cells, h)
    ensures (forall c :: c in h.chunks ==> c in cells) && FromOffset(cells, h, |h.chunks|) == Contents(cells, h)
  {
    assert h.chunks[..|h.chunks|] == h.chunks;
    JoinedLength(cells, h.chunks);
  }

  // ---- Rewriting and filtering whole versions ----

  /** The samples of a chunk from index o on, rewritten. */
  function Mapped(f: Sample -> Sample, data: seq<Sample>, o: nat): (r: seq<Sample>)
    ensures |r| == |data|
  {
    seq(|data|, k requires 0 <= k < |data| => if k >= o then f(data[k]) else data[k])
  }

  function MapAll(f: Sample -> Sample, s: seq<Sample>): (r: seq<Sample>)
    ensures |r| == |s|
  {
    seq(|s|, k requires 0 <= k < |s| => f(s[k]))
  }

  function Filter(keep: Sample -> bool, s: seq<Sample>): seq<Sample> {
    if s == [] then []
    else Filter(keep, s[..|s| - 1]) + if keep(s[|s| - 1]) then [s[|s| - 1]] else []
  }

  /** Part by part, in order; of one sample, that sample exactly if it passes. */
  lemma {:induction false} FilterConcat(keep: Sample -> bool, s: seq<Sample>, t: seq<Sample>, x: Sample)
    ensures Filter(keep, s + t) == Filter(keep, s) + Filter(keep, t)
    ensures Filter(keep, [x]) == (if keep(x) then [x] else []) && Filter(keep, []) == []
  {
    assert [x][..0] == [];
    if t == [] {
      assert s + t == s;
    } else {
      var before, last := t[..|t| - 1], t[|t| - 1];
      FilterConcat(keep, s, before, x);
      assert (s + t)[..|s + t| - 1] == s + before && (s + t)[|s + t| - 1] == last;
    }
  }

  /** The chunk that stores sample j. */
  function ChunkIndex(offset: nat, j: nat): nat { (j + offset) / CHUNK }

  /** The samples of a version with those in chunk i rewritten. */
  function MapChunk(f: Sample -> Sample, s: seq<Sample>, offset: nat, i: nat): (r: seq<Sample>)
    ensures |r| == |s|
  {
    seq(|s|, j requires 0 <= j < |s| => if ChunkIndex(offset, j) == i then f(s[j]) else s[j])
  }

  /** The samples of a version with those in the first i chunks rewritten. */
  function MapBelow(f: Sample -> Sample, s: seq<Sample>, offset: nat, i: nat): (r: seq<Sample>)
    ensures |r| == |s|
  {
    seq(|s|, j requires 0 <= j < |s| => if ChunkIndex(offset, j) < i then f(s[j]) else s[j])
  }

  lemma MapBelowNext(f: Sample -> Sample, s: seq<Sample>, offset: nat, i: nat)
    ensures MapChunk(f, MapBelow(f, s, offset, i), offset, i) == MapBelow(f, s, offset, i + 1)
    ensures MapBelow(f, s, offset, 0) == s
  {
  }

  lemma MappedContents(a: Cells, b: Cells, h: Handle, i: nat, at: nat, f: Sample -> Sample)
    requires Chunked(a, h) && i < |h.chunks| && h.chunks[i] in a && Chunked(b, WithChunkAt(h, i, at))
    requires at == h.chunks[i] || at !in a
    requires b == a[at := Mapped(f, a[h.chunks[i]], if i == 0 then h.offset else 0)]
    ensures Contents(b, WithChunkAt(h, i, at)) == MapChunk(f, Contents(a, h), h.offset, i)
  {
    hide Chunked, Contents;
    ChunksAllocated(a, h);
    ContentsLength(a, h);
    ContentsLength(b, WithChunkAt(h, i, at));
    forall j | 0 <= j < h.len
      ensures Contents(b, WithChunkAt(h, i, at))[j] == MapChunk(f, Contents(a, h), h.offset, i)[j]
    {
      RewriteContents(a, b, h, i, at, j);
      ContentsIndex(a, h, j);
      Slot(j, h.offset);
    }
  }

  /** In the first chunk the slot is the index past the dropped samples. */
  lemma Slot(j: nat, offset: nat)
    ensures (j + offset) / CHUNK == 0 ==> (j + offset) % CHUNK == j + offset >= offset
  {
  }

  lemma MapBelowAll(cells: Cells, h: Handle, f: Sample -> Sample)
    requires Chunked(cells, h)
    ensures MapBelow(f, Contents(cells, h), h.offset, |h.chunks|) == MapAll(f, Contents(cells, h))
  {
    hide Chunked, Contents;
    ContentsLength(cells, h);
    forall j | 0 <= j < h.len
      ensures MapBelow(f, Contents(cells, h), h.offset, |h.chunks|)[j] == MapAll(f, Contents(cells, h))[j]
    {
      ContentsIndex(cells, h, j);
    }
  }

  /** Making one chunk a version's own and rewriting it rewrites the samples stored there, and no other version. */
  lemma RewriteChunkKeeps(a: Cells, strong: map<nat, nat>, live: map<nat, Handle>, v: nat, h: Handle, i: nat, at: nat,
                          f: Sample -> Sample, b: Cells, after: map<nat, nat>)
    requires Coherent(a, strong, live) && v in live && h == live[v] && i < |h.chunks| && Rewritable(a, strong, h, i, at)
    requires h.chunks[i] in a && b == a[at := Mapped(f, a[h.chunks[i]], if i == 0 then h.offset else 0)]
    requires h.chunks[i] in strong
    requires after == if at == h.chunks[i] then strong else strong[at := 1][h.chunks[i] := strong[h.chunks[i]] - 1]
    ensures Coherent(b, after, live[v := WithChunkAt(h, i, at)])
    ensures ViewOf(b, live[v := WithChunkAt(h, i, at)]) ==
            ViewOf(a, live)[v := MapChunk(f, ViewOf(a, live)[v], h.offset, i)]
  {
    hide Chunked, Contents, Moved;
    ChunksAllocated(a, h);
    RewriteMoved(a, strong, live, v, i, at);
    RewriteKeeps(a, strong, live, v, h, i, at, Mapped(f, a[h.chunks[i]], if i == 0 then h.offset else 0));
    MappedContents(a, b, h, i, at, f);
  }
}
