/**
  The recording file: a magic number, then frames of a length and a payload, written
  by appending and read back up to the first incomplete frame.
 */
module Recording {
  import opened Wrappers

  newtype byte = x: int | 0 <= x < 256

  /** A snapshot: its views, and everything else. */
  datatype Snapshot = Snapshot(views: seq<string>, body: string)

  /** How payloads are written and read; the two are assumed inverse. */
  datatype Codec = Codec(encode: Snapshot -> seq<byte>, decode: seq<byte> -> Option<Snapshot>)

  ghost predicate Inverse(c: Codec) { forall s: Snapshot :: c.decode(c.encode(s)) == Some(s) }

  /** "KWATCH", a zero and the version. */
  const MAGIC: seq<byte> := [75, 87, 65, 84, 67, 72, 0, 1]
  const MAX_FRAME: nat := 32 * 1024 * 1024
  const REPLAY_LIMIT: nat := 512 * 1024 * 1024
  const VIEWS: nat := 14

  datatype Error = Unreadable | OtherVersion | TooLarge | BadPayload | TooManyViews

  // ---- Lengths ----

  function LittleEndian(n: nat): (r: seq<byte>)
    requires n < 0x1_0000_0000
    ensures |r| == 4
  {
    [(n % 256) as byte, (n / 256 % 256) as byte, (n / 65536 % 256) as byte, (n / 16777216) as byte]
  }

  function FromLittleEndian(b: seq<byte>): (n: nat)
    requires |b| == 4
  {
    b[0] as int + 256 * (b[1] as int) + 65536 * (b[2] as int) + 16777216 * (b[3] as int)
  }

  lemma LittleEndianInverse(n: nat)
    requires n < 0x1_0000_0000
    ensures FromLittleEndian(LittleEndian(n)) == n
  {
  }

  /** The lowest byte comes first. */
  lemma LittleEndianBytes(n: nat)
    requires n < 0x1_0000_0000
    ensures var b := LittleEndian(n);
            n == b[0] as int + 0x100 * (b[1] as int) + 0x1_0000 * (b[2] as int) + 0x100_0000 * (b[3] as int)
  {
    LittleEndianInverse(n);
    hide LittleEndian;
  }

  // ---- Writing ----

  function Framed(p: seq<byte>): (r: seq<byte>)
    requires |p| <= MAX_FRAME
    ensures |r| == 4 + |p|
  {
    LittleEndian(|p|) + p
  }

  predicate Small(ps: seq<seq<byte>>) { forall i :: 0 <= i < |ps| ==> |ps[i]| <= MAX_FRAME }

  /** The file after the magic number, for payloads in order. */
  function Log(ps: seq<seq<byte>>): seq<byte>
    requires Small(ps)
  {
    if ps == [] then [] else Framed(ps[0]) + Log(ps[1..])
  }

  lemma {:induction false} LogSnoc(ps: seq<seq<byte>>, p: seq<byte>)
    requires Small(ps) && |p| <= MAX_FRAME
    ensures Log(ps + [p]) == Log(ps) + Framed(p)
  {
    if ps == [] {
      assert ps + [p] == [p] && [p][1..] == [];
      assert Log([p]) == Framed(p) + Log([]);
    } else {
      assert (ps + [p])[1..] == ps[1..] + [p];
      LogSnoc(ps[1..], p);
    }
  }

  function Payloads(c: Codec, frames: seq<Snapshot>): (r: seq<seq<byte>>)
    ensures |r| == |frames| && forall i :: 0 <= i < |frames| ==> r[i] == c.encode(frames[i])
  {
    seq(|frames|, i requires 0 <= i < |frames| => c.encode(frames[i]))
  }

  class Recorder {
    const codec: Codec
    var file: seq<byte>
    var count: nat
    ghost var frames: seq<Snapshot>

    ghost predicate Valid()
      reads this
    {
      && count == |frames| && Small(Payloads(codec, frames))
      && file == MAGIC + Log(Payloads(codec, frames))
    }

    constructor (codec: Codec)
      ensures Valid() && frames == [] && this.codec == codec
    {
      this.codec := codec;
      file, count, frames := MAGIC, 0, [];
    }

    /** Appends a frame, unless it is too large to be replayed. */
    method Push(s: Snapshot) returns (ok: bool)
      requires Valid()
      modifies this
      ensures Valid() && (ok <==> |codec.encode(s)| <= 33554432)
      ensures frames == if ok then old(frames) + [s] else old(frames)
      ensures old(file) <= file
    {
      hide Log, Framed;
      var data := codec.encode(s);
      if |data| > MAX_FRAME { return false; }
      LogSnoc(Payloads(codec, frames), data);
      file := file + Framed(data);
      count := count + 1;
      assert Payloads(codec, frames + [s]) == Payloads(codec, frames) + [data];
      frames := frames + [s];
      ok := true;
    }
  }

  // ---- Reading ----

  function Padded(s: Snapshot): Snapshot {
    s.(views := s.views + seq(if |s.views| < VIEWS then VIEWS - |s.views| else 0, _ => ""))
  }

  /** Frames from here on, after so many payload bytes. */
  function ReadFrames(c: Codec, bytes: seq<byte>, total: nat): Result<seq<Snapshot>, Error>
    decreases |bytes|
  {
    if |bytes| < 4 then Ok([])
    else
      var size := FromLittleEndian(bytes[..4]);
      if size > MAX_FRAME || total + size > REPLAY_LIMIT then Err(TooLarge)
      else if |bytes| < 4 + size then Ok([])
      else
        match c.decode(bytes[4..4 + size])
        case None => Err(BadPayload)
        case Some(s) =>
          if |s.views| > VIEWS then Err(TooManyViews)
          else
            match ReadFrames(c, bytes[4 + size..], total + size)
            case Err(e) => Err(e)
            case Ok(rest) => Ok([Padded(s)] + rest)
  }

  function ReadFile(c: Codec, bytes: seq<byte>): Result<seq<Snapshot>, Error> {
    if |bytes| < |MAGIC| then Err(Unreadable)
    else if bytes[..|MAGIC|] != MAGIC then Err(OtherVersion)
    else ReadFrames(c, bytes[|MAGIC|..], 0)
  }

  function Before(frames: seq<Snapshot>, r: Result<seq<Snapshot>, Error>): Result<seq<Snapshot>, Error> {
    match r case Err(e) => Err(e) case Ok(rest) => Ok(frames + rest)
  }

  /** `recording::read`. */
  method Read(c: Codec, bytes: seq<byte>) returns (r: Result<seq<Snapshot>, Error>)
    ensures r == ReadFile(c, bytes)
  {
    hide FromLittleEndian, Padded;
    if |bytes| < |MAGIC| { return Err(Unreadable); }
    if bytes[..|MAGIC|] != MAGIC { return Err(OtherVersion); }
    var frames: seq<Snapshot> := [];
    var total: nat := 0;
    var at := |MAGIC|;
    BeforeNone(ReadFrames(c, bytes[at..], total));
    while true
      invariant |MAGIC| <= at <= |bytes|
      invariant Before(frames, ReadFrames(c, bytes[at..], total)) == ReadFrames(c, bytes[|MAGIC|..], 0)
      decreases |bytes| - at
    {
      var rest := bytes[at..];
      if |rest| < 4 { break; }
      var size := FromLittleEndian(rest[..4]);
      if size > MAX_FRAME || total + size > REPLAY_LIMIT { return Err(TooLarge); }
      if |rest| < 4 + size { break; }
      var s := c.decode(rest[4..4 + size]);
      if s.None? { return Err(BadPayload); }
      if |s.value.views| > VIEWS { return Err(TooManyViews); }
      assert rest[4 + size..] == bytes[at + 4 + size..];
      BeforeNext(frames, Padded(s.value), ReadFrames(c, rest[4 + size..], total + size));
      total := total + size;
      frames := frames + [Padded(s.value)];
      at := at + 4 + size;
    }
    r := Ok(frames);
    assert frames + [] == frames;
  }

  lemma BeforeNone(r: Result<seq<Snapshot>, Error>)
    ensures Before([], r) == r
  {
    if r.Ok? { assert [] + r.value == r.value; }
  }

  lemma BeforeNext(frames: seq<Snapshot>, s: Snapshot, r: Result<seq<Snapshot>, Error>)
    ensures Before(frames, Before([s], r)) == Before(frames + [s], r)
  {
    if r.Ok? { assert frames + ([s] + r.value) == frames + [s] + r.value; }
  }

  // ---- Truncation ----

  /** How many frames are wholly within the first n bytes of a log. */
  function Whole(ps: seq<seq<byte>>, n: nat): (m: nat)
    ensures m <= |ps|
  {
    if ps == [] || n < 4 + |ps[0]| then 0 else 1 + Whole(ps[1..], n - 4 - |ps[0]|)
  }

  lemma {:induction false} WholeMeaning(ps: seq<seq<byte>>, n: nat)
    requires Small(ps)
    ensures var m := Whole(ps, n);
            && |Log(ps[..m])| <= n
            && (m < |ps| ==> |Log(ps[..m + 1])| > n)
  {
    hide Framed;
    if ps == [] {
    } else {
      LogHead(ps, 1);
      if n >= 4 + |ps[0]| {
        var rest, m := ps[1..], Whole(ps[1..], n - 4 - |ps[0]|);
        WholeMeaning(rest, n - 4 - |ps[0]|);
        LogHead(ps, m + 1);
        if m < |rest| { LogHead(ps, m + 2); }
      }
    }
  }

  lemma LogHead(ps: seq<seq<byte>>, m: nat)
    requires Small(ps) && 0 < m <= |ps|
    ensures Log(ps[..m]) == Framed(ps[0]) + Log(ps[1..][..m - 1])
    ensures |Log(ps[..m])| == 4 + |ps[0]| + |Log(ps[1..][..m - 1])|
  {
    hide Framed;
    assert ps[..m][1..] == ps[1..][..m - 1];
  }

  /** Reading n bytes of the log meets a length that would exceed the replay limit. */
  predicate Exceeds(ps: seq<seq<byte>>, n: nat, total: nat) {
    ps != [] && n >= 4 &&
    (total + |ps[0]| > REPLAY_LIMIT || (n >= 4 + |ps[0]| && Exceeds(ps[1..], n - 4 - |ps[0]|, total + |ps[0]|)))
  }

  function PaddedAll(frames: seq<Snapshot>): seq<Snapshot> {
    seq(|frames|, i requires 0 <= i < |frames| => Padded(frames[i]))
  }

  predicate Displayable(frames: seq<Snapshot>) { forall i :: 0 <= i < |frames| ==> |frames[i].views| <= VIEWS }

  lemma FrameParts(p: seq<byte>, rest: seq<byte>, n: nat)
    requires |p| <= MAX_FRAME && 4 <= n <= 4 + |p| + |rest|
    ensures var b := (Framed(p) + rest)[..n];
            && FromLittleEndian(b[..4]) == |p|
            && (n >= 4 + |p| ==> b[4..4 + |p|] == p && b[4 + |p|..] == rest[..n - 4 - |p|])
  {
    var b := (Framed(p) + rest)[..n];
    LittleEndianInverse(|p|);
    assert b[..4] == LittleEndian(|p|) by { FrameHead(p, rest, n); }
    if n >= 4 + |p| { FrameBody(p, rest, n); }
  }

  lemma FrameHead(p: seq<byte>, rest: seq<byte>, n: nat)
    requires |p| <= MAX_FRAME && 4 <= n <= 4 + |p| + |rest|
    ensures (Framed(p) + rest)[..n][..4] == LittleEndian(|p|)
  {
    hide LittleEndian;
  }

  lemma FrameBody(p: seq<byte>, rest: seq<byte>, n: nat)
    requires |p| <= MAX_FRAME && 4 + |p| <= n <= 4 + |p| + |rest|
    ensures var b := (Framed(p) + rest)[..n]; b[4..4 + |p|] == p && b[4 + |p|..] == rest[..n - 4 - |p|]
  {
    hide LittleEndian;
  }

  /** Without a whole frame within the limit nothing is read. */
  lemma ReadNone(c: Codec, frames: seq<Snapshot>, n: nat, total: nat)
    requires Small(Payloads(c, frames)) && n <= |Log(Payloads(c, frames))|
    requires n >= 4 ==> total + |Payloads(c, frames)[0]| > REPLAY_LIMIT || n < 4 + |Payloads(c, frames)[0]|
    ensures var ps := Payloads(c, frames);
            ReadFrames(c, Log(ps)[..n], total) ==
            if Exceeds(ps, n, total) then Err(TooLarge) else Ok(PaddedAll(frames[..Whole(ps, n)]))
  {
    hide Framed, FromLittleEndian, Padded;
    var ps := Payloads(c, frames);
    assert PaddedAll(frames[..0]) == [];
    if n >= 4 { FrameParts(ps[0], Log(ps[1..]), n); }
  }

  /** Reading the first n bytes of a log: an error exactly when a length exceeds the limit, else the whole frames. */
  lemma {:induction false} ReadPrefix(c: Codec, frames: seq<Snapshot>, n: nat, total: nat)
    requires Inverse(c) && Displayable(frames) && Small(Payloads(c, frames)) && n <= |Log(Payloads(c, frames))|
    ensures var ps := Payloads(c, frames);
            ReadFrames(c, Log(ps)[..n], total) ==
            if Exceeds(ps, n, total) then Err(TooLarge) else Ok(PaddedAll(frames[..Whole(ps, n)]))
    decreases |frames|
  {
    hide Framed, FromLittleEndian, Padded, ReadFrames;
    var ps := Payloads(c, frames);
    if n >= 4 && total + |ps[0]| <= REPLAY_LIMIT && n >= 4 + |ps[0]| {
      var p, rest := ps[0], ps[1..];
      assert rest == Payloads(c, frames[1..]);
      ReadOne(c, frames, n, total);
      hide Log;
      ReadPrefix(c, frames[1..], n - 4 - |p|, total + |p|);
      PaddedHead(frames, 1 + Whole(rest, n - 4 - |p|));
    } else {
      ReadNone(c, frames, n, total);
    }
  }

  lemma PaddedHead(frames: seq<Snapshot>, m: nat)
    requires 0 < m <= |frames|
    ensures PaddedAll(frames[..m]) == [Padded(frames[0])] + PaddedAll(frames[1..][..m - 1])
  {
    hide Padded;
  }

  /** One whole frame is read, and the rest after it. */
  lemma ReadOne(c: Codec, frames: seq<Snapshot>, n: nat, total: nat)
    requires Inverse(c) && Displayable(frames) && frames != [] && Small(Payloads(c, frames))
    requires var p := c.encode(frames[0]); 4 + |p| <= n <= |Log(Payloads(c, frames))| && total + |p| <= REPLAY_LIMIT
    requires Payloads(c, frames)[1..] == Payloads(c, frames[1..])
    ensures var p := c.encode(frames[0]); var ps := Payloads(c, frames);
            && n - 4 - |p| <= |Log(Payloads(c, frames[1..]))|
            && ReadFrames(c, Log(ps)[..n], total) ==
               Before([Padded(frames[0])], ReadFrames(c, Log(Payloads(c, frames[1..]))[..n - 4 - |p|], total + |p|))
  {
    hide Framed, FromLittleEndian, Padded;
    var p := c.encode(frames[0]);
    FrameParts(p, Log(Payloads(c, frames[1..])), n);
    assert c.decode(c.encode(frames[0])) == Some(frames[0]);
  }

  /** The bytes of some payloads. */
  function Volume(ps: seq<seq<byte>>): nat { if ps == [] then 0 else |ps[0]| + Volume(ps[1..]) }

  lemma {:induction false} WithinLimit(ps: seq<seq<byte>>, n: nat, total: nat)
    requires total + Volume(ps) <= REPLAY_LIMIT
    ensures !Exceeds(ps, n, total)
  {
    if ps != [] && n >= 4 + |ps[0]| { WithinLimit(ps[1..], n - 4 - |ps[0]|, total + |ps[0]|); }
  }

  /** A recording cut anywhere after its magic number reads back as exactly the frames wholly before the cut. */
  lemma CutRecording(c: Codec, frames: seq<Snapshot>, k: nat)
    requires Inverse(c) && Displayable(frames) && Small(Payloads(c, frames))
    requires Volume(Payloads(c, frames)) <= REPLAY_LIMIT
    requires |MAGIC| <= k <= |MAGIC| + |Log(Payloads(c, frames))|
    ensures var file := MAGIC + Log(Payloads(c, frames)); var m := Whole(Payloads(c, frames), k - |MAGIC|);
            && ReadFile(c, file[..k]) == Ok(PaddedAll(frames[..m]))
            && |MAGIC| + |Log(Payloads(c, frames[..m]))| <= k
            && (m < |frames| ==> k < |MAGIC| + |Log(Payloads(c, frames[..m + 1]))|)
  {
    hide Log, ReadFrames, PaddedAll;
    var ps := Payloads(c, frames);
    var n := k - |MAGIC|;
    WithinLimit(ps, n, 0);
    ReadPrefix(c, frames, n, 0);
    CutMagic(MAGIC, Log(ps), k);
    WholeMeaning(ps, n);
    var m := Whole(ps, n);
    assert Payloads(c, frames[..m]) == ps[..m];
    if m < |frames| { assert Payloads(c, frames[..m + 1]) == ps[..m + 1]; }
  }

  lemma CutMagic(a: seq<byte>, b: seq<byte>, k: nat)
    requires |a| <= k <= |a| + |b|
    ensures (a + b)[..k][..|a|] == a && (a + b)[..k][|a|..] == b[..k - |a|]
  {
  }

  /** An uncut recording within the limits reads back whole. */
  lemma RoundTrip(c: Codec, frames: seq<Snapshot>)
    requires Inverse(c) && Displayable(frames) && Small(Payloads(c, frames))
    ensures ReadFile(c, MAGIC + Log(Payloads(c, frames))) ==
            if Volume(Payloads(c, frames)) <= 536870912 then Ok(PaddedAll(frames)) else Err(TooLarge)
  {
    hide Log, ReadFrames, PaddedAll;
    var ps := Payloads(c, frames);
    var n := |Log(ps)|;
    ReadPrefix(c, frames, n, 0);
    CutMagic(MAGIC, Log(ps), |MAGIC| + n);
    assert (MAGIC + Log(ps))[..|MAGIC| + n] == MAGIC + Log(ps) && Log(ps)[..n] == Log(ps);
    WholeAll(ps);
    ExceedsAll(ps, 0);
    assert frames[..|frames|] == frames;
  }

  lemma {:induction false} WholeAll(ps: seq<seq<byte>>)
    requires Small(ps)
    ensures Whole(ps, |Log(ps)|) == |ps|
  {
    hide Framed;
    if ps == [] {
    } else {
      WholeAll(ps[1..]);
      LogHead(ps, |ps|);
      assert ps[..|ps|] == ps && ps[1..][..|ps| - 1] == ps[1..];
    }
  }

  lemma {:induction false} ExceedsAll(ps: seq<seq<byte>>, total: nat)
    requires Small(ps) && total <= REPLAY_LIMIT
    ensures Exceeds(ps, |Log(ps)|, total) <==> total + Volume(ps) > REPLAY_LIMIT
  {
    hide Framed;
    if ps == [] {
    } else {
      LogHead(ps, |ps|);
      assert ps[..|ps|] == ps && ps[1..][..|ps| - 1] == ps[1..];
      if total + |ps[0]| <= REPLAY_LIMIT { ExceedsAll(ps[1..], total + |ps[0]|); }
    }
  }

  // ---- The format ----

  lemma {:induction false} LogConcat(a: seq<seq<byte>>, b: seq<seq<byte>>)
    requires Small(a) && Small(b)
    ensures Small(a + b) && Log(a + b) == Log(a) + Log(b)
  {
    hide Framed;
    if a == [] {
      assert a + b == b;
    } else {
      assert (a + b)[1..] == a[1..] + b;
      LogConcat(a[1..], b);
    }
  }

  /** After the magic number each payload stands behind its length in four bytes, in order and with nothing between. */
  lemma FrameAt(ps: seq<seq<byte>>, k: nat)
    requires Small(ps) && k < |ps|
    ensures Log(ps) == Log(ps[..k]) + (LittleEndian(|ps[k]|) + ps[k]) + Log(ps[k + 1..])
  {
    var rest := ps[k..];
    LogConcat(ps[..k], rest);
    assert ps == ps[..k] + rest && rest[1..] == ps[k + 1..];
    hide LittleEndian;
    assert Log(rest) == Framed(rest[0]) + Log(rest[1..]);
  }

  lemma MagicBytes()
    ensures MAGIC == ['K' as byte, 'W' as byte, 'A' as byte, 'T' as byte, 'C' as byte, 'H' as byte, 0, 1]
  {
  }

  /** One more frame of any file: too large, unreadable, with too many views, or read with its views filled up to 14. */
  lemma ReadFramed(c: Codec, p: seq<byte>, rest: seq<byte>, total: nat)
    requires |p| < 0x1_0000_0000
    ensures ReadFrames(c, LittleEndian(|p|) + p + rest, total) ==
            if |p| > 33554432 || total + |p| > 536870912 then Err(TooLarge)
            else
              match c.decode(p)
              case None => Err(BadPayload)
              case Some(s) =>
                if |s.views| > 14 then Err(TooManyViews)
                else Before([Padded(s)], ReadFrames(c, rest, total + |p|))
  {
    hide LittleEndian, FromLittleEndian, Padded;
    var b := LittleEndian(|p|) + p + rest;
    LittleEndianInverse(|p|);
    assert b[..4] == LittleEndian(|p|) && b[4..4 + |p|] == p && b[4 + |p|..] == rest;
  }

  /** Missing views are filled up empty, and nothing else changes. */
  lemma PaddedIs(s: Snapshot)
    requires |s.views| <= 14
    ensures |Padded(s).views| == 14 && Padded(s).body == s.body && Padded(s).views[..|s.views|] == s.views
    ensures forall i :: |s.views| <= i < 14 ==> Padded(s).views[i] == ""
  {
  }
}
