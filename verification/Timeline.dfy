/**
  The retained timeline: frames within a byte budget that counts each shared
  profile version once, thinned in its older half before anything is dropped.
 */
module Timelines {
  import opened Sums

  /** A retained frame: its time, its own size, and the version and size of the profile it shares. */
  datatype Frame = Frame(at: nat, size: nat, version: nat, profileSize: nat)

  const BUDGET: nat := 48 * 1024 * 1024
  const MIN_FULL_RESOLUTION: nat := 8
  const MAX_FRAMES: nat := 600

  // ---- Accounting ----

  function Sizes(fs: seq<Frame>): nat {
    if fs == [] then 0 else Sizes(fs[..|fs| - 1]) + fs[|fs| - 1].size
  }

  /** The retained versions with their sizes, each once. */
  function Versions(fs: seq<Frame>): (m: map<nat, nat>)
    ensures forall v :: v in m <==> exists i :: 0 <= i < |fs| && fs[i].version == v
  {
    if fs == [] then map[]
    else
      var f := fs[|fs| - 1];
      var m := Versions(fs[..|fs| - 1]);
      assert fs == fs[..|fs| - 1] + [f];
      m[f.version := f.profileSize]
  }

  /** A version is immutable, so frames that share it agree on its size. */
  ghost predicate Consistent(fs: seq<Frame>) {
    forall i, j :: 0 <= i < j < |fs| && fs[i].version == fs[j].version ==> fs[i].profileSize == fs[j].profileSize
  }

  /** What the frames cost: their sizes, and one size per distinct version. */
  ghost function Bytes(fs: seq<Frame>): nat { Sizes(fs) + Total(Versions(fs)) }

  lemma {:induction false} VersionSize(fs: seq<Frame>, i: nat)
    requires Consistent(fs) && i < |fs|
    ensures fs[i].version in Versions(fs) && Versions(fs)[fs[i].version] == fs[i].profileSize
  {
    if i < |fs| - 1 { VersionSize(fs[..|fs| - 1], i); }
  }

  /** The list of versions, each once, with the sum of their sizes. */
  type Profile = (nat, nat)

  function ListSize(ps: seq<Profile>): nat { if ps == [] then 0 else ListSize(ps[..|ps| - 1]) + ps[|ps| - 1].1 }

  ghost predicate Distinct(ps: seq<Profile>) { forall i, j :: 0 <= i < j < |ps| ==> ps[i].0 != ps[j].0 }

  ghost predicate Listed(ps: seq<Profile>, m: map<nat, nat>) {
    && Distinct(ps)
    && (forall p :: p in ps ==> p.0 in m && m[p.0] == p.1)
    && (forall v :: v in m ==> (v, m[v]) in ps)
  }

  lemma LastOut(ps: seq<Profile>, p: Profile)
    requires Distinct(ps) && ps != []
    ensures p in ps[..|ps| - 1] <==> p in ps && p.0 != ps[|ps| - 1].0
    ensures Distinct(ps[..|ps| - 1]) && ps[|ps| - 1] in ps
  {
    if p in ps[..|ps| - 1] {
      var i :| 0 <= i < |ps| - 1 && ps[..|ps| - 1][i] == p;
      assert ps[i] == p;
    }
    if p in ps && p.0 != ps[|ps| - 1].0 {
      var i :| 0 <= i < |ps| && ps[i] == p;
      assert ps[..|ps| - 1][i] == p;
    }
  }

  lemma {:induction false} ListTotal(ps: seq<Profile>, m: map<nat, nat>)
    requires Listed(ps, m)
    ensures ListSize(ps) == Total(m)
  {
    if ps == [] {
      assert m == map[];
    } else {
      var last := ps[|ps| - 1];
      forall p ensures p in ps[..|ps| - 1] <==> p in ps && p.0 != last.0 { LastOut(ps, p); }
      ListTotal(ps[..|ps| - 1], m - {last.0});
      TotalWithout(m, last.0);
    }
  }

  predicate Uses(fs: seq<Frame>, v: nat) { exists i :: 0 <= i < |fs| && fs[i].version == v }

  /** `Vec::retain`: the profiles some frame still shares. */
  function Retained(ps: seq<Profile>, fs: seq<Frame>): seq<Profile> {
    if ps == [] then []
    else
      var last := ps[|ps| - 1];
      Retained(ps[..|ps| - 1], fs) + if Uses(fs, last.0) then [last] else []
  }

  lemma {:induction false} RetainedMembers(ps: seq<Profile>, fs: seq<Frame>)
    requires Distinct(ps)
    ensures Distinct(Retained(ps, fs))
    ensures forall p :: p in Retained(ps, fs) <==> p in ps && Uses(fs, p.0)
  {
    hide Uses;
    if ps == [] {
    } else {
      var before, last := ps[..|ps| - 1], ps[|ps| - 1];
      forall p ensures p in before <==> p in ps && p.0 != last.0 { LastOut(ps, p); }
      RetainedMembers(before, fs);
      forall p ensures p in Retained(ps, fs) <==> p in ps && Uses(fs, p.0) {
        if p in ps && p.0 == last.0 { assert p == last by { SameVersionSame(ps, p); } }
      }
      assert forall p :: p in Retained(before, fs) ==> p.0 != last.0;
    }
  }

  lemma SameVersionSame(ps: seq<Profile>, p: Profile)
    requires Distinct(ps) && ps != [] && p in ps && p.0 == ps[|ps| - 1].0
    ensures p == ps[|ps| - 1]
  {
  }

  ghost predicate Among(fs: seq<Frame>, gs: seq<Frame>) { forall f :: f in fs ==> f in gs }

  /** Listing the versions of some frames, and retaining those of fewer. */
  lemma RetainedListed(ps: seq<Profile>, gs: seq<Frame>, fs: seq<Frame>)
    requires Consistent(gs) && Consistent(fs) && Among(fs, gs) && Listed(ps, Versions(gs))
    ensures Listed(Retained(ps, fs), Versions(fs))
  {
    RetainedMembers(ps, fs);
    hide Distinct, Retained, Versions, Among;
    forall v | v in Versions(fs) ensures v in Versions(gs) && Versions(gs)[v] == Versions(fs)[v] && Uses(fs, v) {
      AmongVersion(fs, gs, v);
    }
    forall p | p in Retained(ps, fs) ensures p.0 in Versions(fs) { UsedVersion(fs, p.0); }
  }

  lemma UsedVersion(fs: seq<Frame>, v: nat)
    ensures Uses(fs, v) <==> v in Versions(fs)
  {
  }

  lemma AmongVersion(fs: seq<Frame>, gs: seq<Frame>, v: nat)
    requires Consistent(gs) && Consistent(fs) && Among(fs, gs) && v in Versions(fs)
    ensures v in Versions(gs) && Versions(gs)[v] == Versions(fs)[v] && Uses(fs, v)
  {
    hide Consistent;
    var i :| 0 <= i < |fs| && fs[i].version == v;
    VersionSize(fs, i);
    assert fs[i] in gs;
    var j :| 0 <= j < |gs| && gs[j] == fs[i];
    VersionSize(gs, j);
  }

  // ---- Thinning and dropping ----

  /** The elements at even places. */
  function Evens<T>(s: seq<T>): (r: seq<T>)
    ensures |r| == (|s| + 1) / 2
    ensures forall i :: 0 <= i < |r| ==> r[i] == s[2 * i]
  {
    if |s| <= 1 then s else [s[0]] + Evens(s[2..])
  }

  /** One thinning pass: every second element of the older half goes. */
  function Thinned<T>(s: seq<T>): seq<T> { Evens(s[..|s| / 2]) + s[|s| / 2..] }

  /** A pass over enough frames strictly shrinks them, keeps the oldest one and the whole newer half. */
  lemma ThinnedShape<T>(s: seq<T>)
    requires |s| >= 4
    ensures |s| / 2 < |Thinned(s)| < |s|
    ensures Thinned(s)[0] == s[0] && Thinned(s)[|Thinned(s)| - (|s| - |s| / 2)..] == s[|s| / 2..]
    ensures forall i :: 0 <= i < (|s| / 2 + 1) / 2 ==> Thinned(s)[i] == s[2 * i]
  {
  }

  lemma ThinnedAt<T>(s: seq<T>, i: nat)
    requires i < |Thinned(s)|
    ensures var half := |s| / 2; var kept := (half + 1) / 2;
            && |Thinned(s)| == kept + |s| - half
            && Thinned(s)[i] == if i < kept then s[2 * i] else s[half + i - kept]
  {
  }

  lemma ThinnedFrames(fs: seq<Frame>)
    requires Consistent(fs)
    ensures Consistent(Thinned(fs)) && Among(Thinned(fs), fs)
  {
    var t := Thinned(fs);
    forall i, j | 0 <= i < j < |t| && t[i].version == t[j].version ensures t[i].profileSize == t[j].profileSize {
      ThinnedAt(fs, i);
      ThinnedAt(fs, j);
    }
  }

  ghost function Thinning(fs: seq<Frame>): seq<Frame>
    decreases |fs|
  {
    if Bytes(fs) > BUDGET && |fs| > MIN_FULL_RESOLUTION then
      ThinnedShape(fs);
      Thinning(Thinned(fs))
    else fs
  }

  ghost function Dropping(fs: seq<Frame>): seq<Frame> {
    if |fs| > MAX_FRAMES || (Bytes(fs) > BUDGET && |fs| > 1) then Dropping(fs[1..]) else fs
  }

  ghost predicate Within(fs: seq<Frame>) { |fs| <= MAX_FRAMES && (Bytes(fs) <= BUDGET || |fs| <= 1) }

  /** However often it is thinned, a timeline keeps its oldest frame and its newest. */
  lemma {:induction false} ThinningKeepsEnds(fs: seq<Frame>)
    requires fs != []
    ensures Thinning(fs) != [] && Thinning(fs)[0] == fs[0] && Thinning(fs)[|Thinning(fs)| - 1] == fs[|fs| - 1]
    decreases |fs|
  {
    hide Bytes, Thinned;
    if Bytes(fs) > BUDGET && |fs| > MIN_FULL_RESOLUTION {
      ThinnedShape(fs);
      ThinnedNothing(fs);
      ThinningKeepsEnds(Thinned(fs));
    }
  }

  /** Dropping takes the oldest frames, and no more of them than the limits ask for. */
  lemma {:induction false} DroppingIsMinimal(fs: seq<Frame>) returns (k: nat)
    ensures k <= |fs| && Dropping(fs) == fs[k..] && Within(fs[k..])
    ensures forall j :: 0 <= j < k ==> !Within(fs[j..])
  {
    hide Bytes;
    k := 0;
    if !Within(fs) {
      var j := DroppingIsMinimal(fs[1..]);
      k := j + 1;
      assert fs[k..] == fs[1..][j..];
      forall i | 0 <= i < k ensures !Within(fs[i..]) {
        if i > 0 { assert fs[i..] == fs[1..][i - 1..]; } else { assert fs[0..] == fs; }
      }
    }
  }

  // ---- Exactly how much is thinned and dropped ----

  /** The frames after k thinning passes. */
  function Passes(fs: seq<Frame>, k: nat): seq<Frame> { if k == 0 then fs else Thinned(Passes(fs, k - 1)) }

  lemma {:induction false} PassesLater(fs: seq<Frame>, k: nat)
    ensures Passes(Thinned(fs), k) == Passes(fs, k + 1)
  {
    hide Thinned;
    if k == 0 {
    } else {
      PassesLater(fs, k - 1);
    }
  }

  /** Over the budget of 48 MiB while more than eight frames are left. */
  ghost predicate Excessive(fs: seq<Frame>) { Bytes(fs) > 50331648 && |fs| > 8 }

  /** Thinning is so many passes as bring the bytes into the budget or leave at most eight frames, and no more. */
  lemma {:induction false} ThinningIsMinimal(fs: seq<Frame>) returns (k: nat)
    ensures Thinning(fs) == Passes(fs, k) && !Excessive(Passes(fs, k))
    ensures forall j: nat :: j < k ==> Excessive(Passes(fs, j))
    decreases |fs|
  {
    hide Bytes, Thinned;
    if Excessive(fs) {
      ThinnedShape(fs);
      var l := ThinningIsMinimal(Thinned(fs));
      k := l + 1;
      PassesLater(fs, l);
      forall j: nat | j < k ensures Excessive(Passes(fs, j)) {
        if j > 0 { PassesLater(fs, j - 1); }
      }
    } else {
      k := 0;
    }
  }

  /** At most 600 frames, and within the budget or a single one. */
  ghost predicate Fits(fs: seq<Frame>) { |fs| <= 600 && (Bytes(fs) <= 50331648 || |fs| <= 1) }

  /** So many passes as needed, then so many of the oldest frames dropped as needed. */
  ghost predicate Fitted(fs: seq<Frame>, gs: seq<Frame>, k: nat, d: nat) {
    var thin := Passes(fs, k);
    && (forall j: nat :: j < k ==> Excessive(Passes(fs, j))) && !Excessive(thin)
    && d <= |thin| && gs == thin[d..] && Fits(gs) && forall e: nat :: e < d ==> !Fits(thin[e..])
  }

  lemma RetainedIsFitted(fs: seq<Frame>) returns (k: nat, d: nat)
    ensures Fitted(fs, Dropping(Thinning(fs)), k, d)
  {
    hide Bytes, Thinning, Dropping, Passes;
    k := ThinningIsMinimal(fs);
    d := DroppingIsMinimal(Thinning(fs));
  }

  /** What fits already is kept whole. */
  lemma FittingStays(fs: seq<Frame>, gs: seq<Frame>, k: nat, d: nat)
    requires Fitted(fs, gs, k, d) && |fs| <= 600 && Bytes(fs) <= 50331648
    ensures gs == fs
  {
    hide Bytes;
    assert !Excessive(Passes(fs, 0));
    assert k == 0;
    assert fs[0..] == fs;
  }

  /** A frame costs its own bytes, and those of its profile unless a frame before it shares the version. */
  lemma BytesNext(fs: seq<Frame>, f: Frame)
    requires Consistent(fs + [f]) && Consistent(fs)
    ensures Bytes([]) == 0
    ensures Bytes(fs + [f]) ==
            Bytes(fs) + f.size + if exists i :: 0 <= i < |fs| && fs[i].version == f.version then 0 else f.profileSize
  {
    var m := Versions(fs);
    VersionsSnoc(fs, f);
    TotalSet(m, f.version, f.profileSize);
    if i :| 0 <= i < |fs| && fs[i].version == f.version {
      VersionSize(fs, i);
      assert (fs + [f])[i] == fs[i] && (fs + [f])[|fs|] == f;
    }
  }

  // ---- The timeline ----

  /** The frames are the offered ones at these places, in order, the newest among them. */
  ghost predicate Chosen(offered: seq<Frame>, fs: seq<Frame>, kept: seq<nat>) {
    && |kept| == |fs|
    && (forall i :: 0 <= i < |fs| ==> kept[i] < |offered| && fs[i] == offered[kept[i]])
    && (forall i, j :: 0 <= i < j < |kept| ==> kept[i] < kept[j])
    && (offered != [] ==> fs != [] && kept[|kept| - 1] == |offered| - 1)
  }

  lemma ThinnedRises(kept: seq<nat>)
    requires forall i, j :: 0 <= i < j < |kept| ==> kept[i] < kept[j]
    ensures forall i, j :: 0 <= i < j < |Thinned<nat>(kept)| ==> Thinned<nat>(kept)[i] < Thinned<nat>(kept)[j]
  {
    var k := Thinned<nat>(kept);
    forall i, j | 0 <= i < j < |k| ensures k[i] < k[j] {
      ThinnedAt<nat>(kept, i);
      ThinnedAt<nat>(kept, j);
    }
  }

  lemma ThinnedLength<S, T>(a: seq<S>, b: seq<T>)
    requires |a| == |b|
    ensures |Thinned(a)| == |Thinned(b)|
  {
  }

  lemma ThinnedTogether(offered: seq<Frame>, fs: seq<Frame>, kept: seq<nat>, i: nat)
    requires |kept| == |fs| && (forall i :: 0 <= i < |fs| ==> kept[i] < |offered| && fs[i] == offered[kept[i]])
    requires i < |Thinned(fs)| && |Thinned(fs)| == |Thinned<nat>(kept)|
    ensures Thinned<nat>(kept)[i] < |offered| && Thinned(fs)[i] == offered[Thinned<nat>(kept)[i]]
  {
    hide Thinned;
    ThinnedAt(fs, i);
    ThinnedAt<nat>(kept, i);
    var half := |fs| / 2;
    var x := if i < (half + 1) / 2 then 2 * i else half + i - (half + 1) / 2;
    assert Thinned(fs)[i] == fs[x] && Thinned<nat>(kept)[i] == kept[x];
  }

  lemma ThinnedNothing<T>(s: seq<T>)
    ensures s == [] ==> Thinned(s) == []
    ensures s != [] ==> Thinned(s) != [] && Thinned(s)[|Thinned(s)| - 1] == s[|s| - 1]
  {
  }

  lemma ChosenThinned(offered: seq<Frame>, fs: seq<Frame>, kept: seq<nat>)
    requires Chosen(offered, fs, kept)
    ensures Chosen(offered, Thinned(fs), Thinned<nat>(kept))
  {
    hide Thinned;
    ThinnedNothing(fs);
    ThinnedNothing<nat>(kept);
    ThinnedRises(kept);
    ThinnedLength<Frame, nat>(fs, kept);
    forall i: nat | i < |Thinned(fs)|
      ensures Thinned<nat>(kept)[i] < |offered| && Thinned(fs)[i] == offered[Thinned<nat>(kept)[i]]
    {
      ThinnedTogether(offered, fs, kept, i);
    }
  }

  lemma ChosenDropped(offered: seq<Frame>, fs: seq<Frame>, kept: seq<nat>)
    requires Chosen(offered, fs, kept) && |fs| > 1
    ensures |kept| > 1 && Chosen(offered, fs[1..], kept[1..])
  {
  }

  lemma ChosenOffered(offered: seq<Frame>, fs: seq<Frame>, kept: seq<nat>, f: Frame)
    requires Chosen(offered, fs, kept)
    ensures Chosen(offered + [f], fs + [f], kept + [|offered|])
  {
  }

  lemma OfferedListed(ps: seq<Profile>, fs: seq<Frame>, f: Frame)
    requires Consistent(fs + [f]) && Consistent(fs) && Listed(ps, Versions(fs))
    ensures Uses(fs, f.version) ==> Versions(fs + [f]) == Versions(fs)
    ensures !Uses(fs, f.version) ==> Listed(ps + [(f.version, f.profileSize)], Versions(fs + [f]))
  {
    assert (fs + [f])[..|fs|] == fs;
    UsedVersion(fs, f.version);
    if Uses(fs, f.version) {
      var i :| 0 <= i < |fs| && fs[i].version == f.version;
      VersionSize(fs, i);
      assert (fs + [f])[i] == fs[i] && (fs + [f])[|fs|] == f;
    } else {
      hide Versions, Consistent, Uses;
      assert Versions(fs + [f]) == Versions(fs)[f.version := f.profileSize] by { VersionsSnoc(fs, f); }
    }
  }

  lemma VersionsSnoc(fs: seq<Frame>, f: Frame)
    ensures Versions(fs + [f]) == Versions(fs)[f.version := f.profileSize]
    ensures Sizes(fs + [f]) == Sizes(fs) + f.size
  {
    assert (fs + [f])[..|fs|] == fs;
  }

  class Timeline {
    var frames: seq<Frame>
    /** The versions some frame shares, each once, with its size. */
    var profiles: seq<Profile>
    var bytes: nat
    ghost var offered: seq<Frame>
    ghost var kept: seq<nat>

    /** Everything but the limits. */
    ghost predicate Accounted()
      reads this
    {
      && Consistent(frames) && Listed(profiles, Versions(frames)) && bytes == Bytes(frames)
      && Chosen(offered, frames, kept)
    }

    ghost predicate Valid()
      reads this
    {
      Accounted() && Within(frames)
    }

    constructor ()
      ensures Valid() && frames == [] && offered == []
    {
      frames, profiles, bytes, offered, kept := [], [], 0, [], [];
    }

    /** The accounts from scratch, for frames left of those the profiles were listed for. */
    method Recount(ghost was: seq<Frame>)
      requires Consistent(was) && Consistent(frames) && Among(frames, was) && Listed(profiles, Versions(was))
      modifies `profiles, `bytes
      ensures Listed(profiles, Versions(frames)) && bytes == Bytes(frames)
    {
      hide Consistent, Among, Listed;
      RetainedListed(profiles, was, frames);
      profiles := Retained(profiles, frames);
      ListTotal(profiles, Versions(frames));
      bytes := Sizes(frames) + ListSize(profiles);
    }

    method Thin()
      requires Accounted() && |frames| > MIN_FULL_RESOLUTION
      modifies this
      ensures Accounted() && frames == Thinned(old(frames)) && offered == old(offered)
    {
      hide Consistent, Among, Listed, Chosen, Thinned, Bytes;
      ThinnedFrames(frames);
      ChosenThinned(offered, frames, kept);
      frames := Thinned(frames);
      kept := Thinned<nat>(kept);
      Recount(old(frames));
    }

    method DropOldest()
      requires Accounted() && |frames| > 1
      modifies this
      ensures Accounted() && frames == old(frames)[1..] && offered == old(offered)
    {
      hide Listed, Chosen, Bytes;
      ChosenDropped(offered, frames, kept);
      frames := frames[1..];
      kept := kept[1..];
      Recount(old(frames));
    }

    /** Counts a frame, and its profile if it is not listed yet. */
    method Count(f: Frame)
      requires Accounted() && Consistent(frames + [f])
      modifies `profiles, `bytes
      ensures Listed(profiles, Versions(frames + [f])) && bytes == Bytes(frames + [f])
    {
      hide Consistent, Chosen, Listed, Versions, Sizes;
      OfferedListed(profiles, frames, f);
      VersionsSnoc(frames, f);
      if !Uses(frames, f.version) {
        profiles := profiles + [(f.version, f.profileSize)];
        bytes := bytes + f.profileSize;
        TotalSet(Versions(frames), f.version, f.profileSize);
        UsedVersion(frames, f.version);
      }
      bytes := bytes + f.size;
    }

    /** The new frame is counted, and its profile if no retained frame shares it. */
    method Push(f: Frame)
      requires Accounted() && Consistent(frames + [f])
      modifies this
      ensures Accounted() && frames == old(frames) + [f] && offered == old(offered) + [f]
    {
      hide Consistent, Chosen, Listed, Bytes;
      Count(f);
      ChosenOffered(offered, frames, kept, f);
      frames := frames + [f];
      kept := kept + [|offered|];
      offered := offered + [f];
    }

    /** `retain_frame`: a frame at the newest time is not taken; else the timeline is thinned and dropped to fit. */
    method RetainFrame(f: Frame)
      requires Valid() && Consistent(frames + [f])
      modifies this
      ensures Valid()
      ensures old(frames) != [] && old(frames)[|old(frames)| - 1].at == f.at ==>
                frames == old(frames) && offered == old(offered) && bytes == old(bytes)
      ensures old(frames) == [] || old(frames)[|old(frames)| - 1].at != f.at ==>
                && frames == Dropping(Thinning(old(frames) + [f])) && offered == old(offered) + [f]
                && (exists k: nat, d: nat :: Fitted(old(frames) + [f], frames, k, d))
                && (|old(frames)| < 600 && Bytes(old(frames) + [f]) <= 50331648 ==> frames == old(frames) + [f])
    {
      hide Accounted, Bytes, Thinned;
      if |frames| > 0 && frames[|frames| - 1].at == f.at { return; }
      Push(f);
      while bytes > BUDGET && |frames| > MIN_FULL_RESOLUTION
        invariant Accounted() && offered == old(offered) + [f]
        invariant Thinning(frames) == Thinning(old(frames) + [f])
        decreases |frames|
      {
        CountsBytes();
        ThinnedShape(frames);
        Thin();
      }
      CountsBytes();
      assert frames == Thinning(old(frames) + [f]);
      while |frames| > MAX_FRAMES || (bytes > BUDGET && |frames| > 1)
        invariant Accounted() && offered == old(offered) + [f]
        invariant Dropping(frames) == Dropping(Thinning(old(frames) + [f]))
        decreases |frames|
      {
        CountsBytes();
        DropOldest();
      }
      CountsBytes();
      ghost var k, d := RetainedIsFitted(old(frames) + [f]);
      if |old(frames)| < 600 && Bytes(old(frames) + [f]) <= 50331648 {
        FittingStays(old(frames) + [f], frames, k, d);
      }
    }

    lemma CountsBytes()
      requires Accounted()
      ensures bytes == Bytes(frames)
    {
    }
  }
}
