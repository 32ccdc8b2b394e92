/** How long the simulated disk takes (machine/disk.cc): seeking, waiting for the sector to come
    round, and the track buffer. The data itself is in module Sectors; here a request only sets the
    time at which its interrupt comes. */
module DiskTimes {
  import opened Sectors

  const SECTORS_PER_TRACK := 32
  const ROTATION_TIME := 500
  const SEEK_TIME := 500

  // ---------------------------------------------------------------- where the head is

  /** The head reaches a new sector at every multiple of ROTATION_TIME. */
  predicate Boundary(t: nat) { t % ROTATION_TIME == 0 }

  /** The sector of its track that begins to pass under the head at a boundary. */
  function SectorAt(t: nat): nat { t / ROTATION_TIME % SECTORS_PER_TRACK }

  /** A sector begins to pass under the head. */
  predicate Begins(sector: nat, t: nat) {
    Boundary(t) && SectorAt(t) == sector % SECTORS_PER_TRACK
  }

  function SeekTime(from: nat, to: nat): nat {
    Abs(to / SECTORS_PER_TRACK - from / SECTORS_PER_TRACK) * SEEK_TIME
  }

  /** The sectors of a track are numbered one after the other. */
  predicate OnTrack(sector: nat, track: nat) {
    SECTORS_PER_TRACK * track <= sector < SECTORS_PER_TRACK * track + SECTORS_PER_TRACK
  }

  /** Between the tracks of two sectors the head crosses `tracks` tracks, inwards or outwards. */
  ghost predicate TracksApart(from: nat, to: nat, tracks: nat) {
    exists a: nat, b: nat :: OnTrack(from, a) && OnTrack(to, b) && (b == a + tracks || a == b + tracks)
  }

  lemma TrackOf(sector: nat)
    ensures forall a: nat :: OnTrack(sector, a) <==> a == sector / SECTORS_PER_TRACK
  {
  }

  /** Any two sectors are some number of tracks apart, and one only. */
  lemma ApartOnce(from: nat, to: nat) returns (tracks: nat)
    ensures forall n :: TracksApart(from, to, n) <==> n == tracks
  {
    TrackOf(from);
    TrackOf(to);
    var a, b := from / SECTORS_PER_TRACK, to / SECTORS_PER_TRACK;
    tracks := if a <= b then b - a else a - b;
    assert OnTrack(from, a) && OnTrack(to, b);
  }

  /** The head crosses one track every 500 ticks, and seeks nothing else. */
  lemma SeekCrossesTracks(from: nat, to: nat, tracks: nat)
    ensures TracksApart(from, to, tracks) <==> SeekTime(from, to) == 500 * tracks
  {
    TrackOf(from);
    TrackOf(to);
    var _ := ApartOnce(from, to);
    assert OnTrack(from, from / SECTORS_PER_TRACK) && OnTrack(to, to / SECTORS_PER_TRACK);
  }

  /** Going there takes as long as coming back; a seek can stop over at any track on its way. */
  lemma SeeksAddUp(a: nat, b: nat, c: nat)
    requires a <= b <= c
    ensures SeekTime(a, c) == SeekTime(a, b) + SeekTime(b, c) && SeekTime(c, a) == SeekTime(a, c)
    ensures SeekTime(a, a) == 0 && SeekTime(a, a + SECTORS_PER_TRACK) == 500
  {
    assert a / SECTORS_PER_TRACK <= b / SECTORS_PER_TRACK <= c / SECTORS_PER_TRACK;
  }

  /** The disk turns: the sectors of a track come one after the other, 500 ticks apart, each of them once in
      a turn, and the first one comes when the clock is at 0. */
  lemma Rotates(sector: nat, t: nat, u: nat)
    ensures Begins(0, 0) && (Begins(sector, t) ==> Begins(sector + 1, t + 500))
    ensures Begins(sector, t) && Begins(sector, u) && t < u ==> u - t >= 32 * 500
  {
    if Begins(sector, t) {
      assert (t + 500) / ROTATION_TIME == t / ROTATION_TIME + 1;
      if Begins(sector, u) && t < u {
        SectorsApart(t, u);
      }
    }
  }

  /** `t` is the first boundary not before `from`. */
  ghost predicate NextBoundary(from: nat, t: nat) {
    from <= t && Boundary(t) && forall u: nat :: from <= u < t ==> !Boundary(u)
  }

  /** `t` is the first time not before `from` at which the sector begins to pass under the head. */
  ghost predicate NextPass(sector: nat, from: nat, t: nat) {
    from <= t && Begins(sector, t) && forall u: nat :: from <= u < t ==> !Begins(sector, u)
  }

  /** The sector has passed under the head, all of it, between two times. */
  ghost predicate Passed(sector: nat, from: nat, to: nat) {
    exists t: nat :: from <= t && Begins(sector, t) && t + ROTATION_TIME <= to
  }

  function ModuloDiff(to: nat, from: nat): nat {
    ((to % SECTORS_PER_TRACK - from % SECTORS_PER_TRACK) + SECTORS_PER_TRACK) % SECTORS_PER_TRACK
  }

  /** The sectors to wait for: so many later, and no sooner, the head is over the right one. */
  lemma ModuloDiffIsLeast(to: nat, from: nat, e: nat)
    ensures ModuloDiff(to, from) < SECTORS_PER_TRACK
    ensures (from + ModuloDiff(to, from)) % SECTORS_PER_TRACK == to % SECTORS_PER_TRACK
    ensures (from + e) % SECTORS_PER_TRACK == to % SECTORS_PER_TRACK ==> ModuloDiff(to, from) <= e
  {
    var a, b, q, d := to % SECTORS_PER_TRACK, from % SECTORS_PER_TRACK, from / SECTORS_PER_TRACK, ModuloDiff(to, from);
    assert from == 32 * q + b;
    assert d == if a >= b then a - b else a - b + 32;
    OffsetOf(from + d, if a >= b then q else q + 1, a);
    if e < d {
      OffsetOf(from + e, if b + e < 32 then q else q + 1, if b + e < 32 then b + e else b + e - 32);
    }
  }

  lemma OffsetOf(x: nat, track: nat, offset: nat)
    requires x == 32 * track + offset && offset < 32
    ensures x % SECTORS_PER_TRACK == offset
  {
  }

  lemma BoundaryAfter(start: nat, e: nat)
    requires Boundary(start)
    ensures Boundary(start + e * ROTATION_TIME)
    ensures (start + e * ROTATION_TIME) / ROTATION_TIME == start / ROTATION_TIME + e
  {
  }

  /** From a boundary on, the sector comes after `ModuloDiff` sectors and not before. */
  lemma FirstPass(sector: nat, start: nat)
    requires Boundary(start)
    ensures NextPass(sector, start, start + ModuloDiff(sector, start / ROTATION_TIME) * ROTATION_TIME)
  {
    hide ModuloDiff;
    var from := start / ROTATION_TIME;
    var d := ModuloDiff(sector, from);
    ModuloDiffIsLeast(sector, from, d);
    BoundaryAfter(start, d);
    forall u: nat | start <= u < start + d * ROTATION_TIME
      ensures !Begins(sector, u)
    {
      if Begins(sector, u) {
        SectorsApart(start, u);
        var e := u / ROTATION_TIME - from;
        ModuloDiffIsLeast(sector, from, e);
      }
    }
  }

  lemma SectorsApart(start: nat, u: nat)
    requires Boundary(start) && Boundary(u) && start <= u
    ensures start / ROTATION_TIME <= u / ROTATION_TIME
    ensures u == start + (u / ROTATION_TIME - start / ROTATION_TIME) * ROTATION_TIME
  {
  }

  /** Waiting first for a boundary costs nothing: sectors only begin at boundaries. */
  lemma FirstPassFrom(sector: nat, from: nat, start: nat, t: nat)
    requires NextBoundary(from, start) && NextPass(sector, start, t)
    ensures NextPass(sector, from, t)
  {
    forall u: nat | from <= u < t
      ensures !Begins(sector, u)
    {
      if u < start {
        assert !Boundary(u);
      }
    }
  }

  /** The test for the track buffer: the number of sectors that went by is more than the number
      before the one wanted exactly if that one has gone by. */
  lemma BufferTest(sector: nat, bufferInit: nat, timeAfter: nat)
    requires Boundary(bufferInit) && Boundary(timeAfter) && bufferInit <= timeAfter
    ensures (timeAfter - bufferInit) / ROTATION_TIME > ModuloDiff(sector, bufferInit / ROTATION_TIME)
            <==> Passed(sector, bufferInit, timeAfter)
  {
    hide ModuloDiff, Begins, Boundary;
    var d := ModuloDiff(sector, bufferInit / ROTATION_TIME);
    var first := bufferInit + d * ROTATION_TIME;
    FirstPass(sector, bufferInit);
    SectorsBetween(bufferInit, timeAfter, d);
    if Passed(sector, bufferInit, timeAfter) {
      var t: nat :| bufferInit <= t && Begins(sector, t) && t + ROTATION_TIME <= timeAfter;
      assert first <= t;
    }
  }

  lemma SectorsBetween(from: nat, to: nat, d: nat)
    requires from <= to
    ensures (to - from) / ROTATION_TIME > d <==> from + d * ROTATION_TIME + ROTATION_TIME <= to
  {
  }

  // ---------------------------------------------------------------- the disk

  /** The longest any request takes: from the first track to the last, just missing the sector. */
  const LONGEST := 31 * SEEK_TIME + (ROTATION_TIME - 1) + 31 * ROTATION_TIME + ROTATION_TIME

  /** So long a request takes that the disk serves directly: when all tracks have been crossed, the transfer
      begins as soon as the sector comes under the head, in less than one turn of the disk. */
  ghost predicate Takes(from: nat, to: nat, now: nat, latency: nat) {
    forall tracks: nat | TracksApart(from, to, tracks) ::
      500 * tracks + 500 <= latency < 500 * tracks + 500 + 32 * 500 &&
      NextPass(to, now + 500 * tracks, now + latency - 500)
  }

  /** Staying on the track keeps the track buffer; after a seek it starts at the next boundary. */
  ghost predicate BufferAfter(from: nat, to: nat, now: nat, bufferInit: nat, bufferInit': nat) {
    if TracksApart(from, to, 0) then bufferInit' == bufferInit
    else forall tracks: nat | TracksApart(from, to, tracks) :: NextBoundary(now + 500 * tracks, bufferInit')
  }

  class Disk {
    var lastSector: nat
    var bufferInit: nat
    var active: bool
    ghost var doneAt: nat

    /** At time `now`: the track buffer was started at a boundary, before the request under way is
        done. */
    ghost predicate Valid(now: nat)
      reads this
    {
      && lastSector < NUM_SECTORS && Boundary(bufferInit) && bufferInit <= doneAt
      && (!active ==> doneAt <= now)
    }

    constructor ()
      ensures forall now :: Valid(now)
      ensures !active && lastSector == 0 && bufferInit == 0
    {
      lastSector, bufferInit, active, doneAt := 0, 0, false, 0;
    }

    method TimeToSeek(newSector: nat, now: nat) returns (seek: nat, rotation: nat)
      ensures seek == SeekTime(lastSector, newSector)
      ensures forall n: nat :: TracksApart(lastSector, newSector, n) ==> seek == 500 * n
      ensures NextBoundary(now + seek, now + seek + rotation) && rotation < ROTATION_TIME
    {
      forall n: nat | TracksApart(lastSector, newSector, n)
        ensures SeekTime(lastSector, newSector) == 500 * n
      {
        SeekCrossesTracks(lastSector, newSector, n);
      }
      var newTrack := newSector / SECTORS_PER_TRACK;
      var oldTrack := lastSector / SECTORS_PER_TRACK;
      seek := Abs(newTrack - oldTrack) * SEEK_TIME;
      var over := (now + seek) % ROTATION_TIME;
      rotation := 0;
      if over > 0 {
        rotation := ROTATION_TIME - over;
      }
    }

    /** The disk has the sector in its buffer: it is being read, no seek is needed, and it has passed
        under the head since the buffer was started. */
    ghost predicate Buffered(newSector: nat, writing: bool, now: nat)
      reads this
    {
      !writing && TracksApart(lastSector, newSector, 0) &&
      exists t: nat :: NextBoundary(now, t) && Passed(newSector, bufferInit, t)
    }

    /** A sector in the buffer takes one transfer; any other begins to be transferred at the first
        moment after the seek at which it comes under the head: when all tracks have been crossed and at
        most one turn of the disk later. */
    method ComputeLatency(newSector: nat, writing: bool, now: nat) returns (latency: nat)
      requires Valid(now) && !active && newSector < NUM_SECTORS
      ensures Buffered(newSector, writing, now) ==> latency == ROTATION_TIME
      ensures !Buffered(newSector, writing, now) ==> Takes(lastSector, newSector, now, latency)
      ensures ROTATION_TIME <= latency <= LONGEST
    {
      var seek, rotation := TimeToSeek(newSector, now);
      var timeAfter := now + seek + rotation;
      SeekBound(lastSector, newSector);
      BufferTest(newSector, bufferInit, timeAfter);
      if !writing && seek == 0
         && (timeAfter - bufferInit) / ROTATION_TIME > ModuloDiff(newSector, bufferInit / ROTATION_TIME) {
        return ROTATION_TIME;
      }
      FirstPass(newSector, timeAfter);
      ModuloDiffIsLeast(newSector, timeAfter / ROTATION_TIME, 0);
      rotation := rotation + ModuloDiff(newSector, timeAfter / ROTATION_TIME) * ROTATION_TIME;
      FirstPassFrom(newSector, now + seek, timeAfter, now + seek + rotation);
      return seek + rotation + ROTATION_TIME;
    }

    /** A seek empties the track buffer: it starts again at the first boundary on the new track. */
    method UpdateLast(newSector: nat, now: nat)
      requires newSector < NUM_SECTORS
      modifies this`lastSector, this`bufferInit
      ensures lastSector == newSector
      ensures BufferAfter(old(lastSector), newSector, now, old(bufferInit), bufferInit)
    {
      var seek, rotate := TimeToSeek(newSector, now);
      if seek != 0 {
        bufferInit := now + seek + rotate;
      }
      lastSector := newSector;
    }

    /** ReadRequest and WriteRequest: the interrupt comes after the latency. */
    method StartRequest(newSector: nat, writing: bool, now: nat) returns (ticks: nat)
      requires Valid(now) && !active && newSector < NUM_SECTORS
      modifies this
      ensures Valid(now) && active && lastSector == newSector && doneAt == now + ticks
      ensures BufferAfter(old(lastSector), newSector, now, old(bufferInit), bufferInit)
      ensures old(Buffered(newSector, writing, now)) ==> ticks == ROTATION_TIME
      ensures !old(Buffered(newSector, writing, now)) ==> Takes(old(lastSector), newSector, now, ticks)
      ensures ROTATION_TIME <= ticks <= LONGEST
    {
      ticks := ComputeLatency(newSector, writing, now);
      active := true;
      ghost var tracks := ApartOnce(lastSector, newSector);
      UpdateLast(newSector, now);
      doneAt := now + ticks;
      assert TracksApart(old(lastSector), newSector, tracks);
      if tracks != 0 {
        assert !TracksApart(old(lastSector), newSector, 0);
        SeekThenPass(now + 500 * tracks, bufferInit, newSector, now + ticks - ROTATION_TIME);
      }
    }

    /** The interrupt of the request under way. */
    method CallBack(now: nat)
      requires Valid(now) && active && doneAt <= now
      modifies this`active
      ensures Valid(now) && !active
    {
      active := false;
    }
  }

  lemma SeekThenPass(from: nat, boundary: nat, sector: nat, pass: nat)
    requires NextBoundary(from, boundary) && NextPass(sector, from, pass)
    ensures boundary <= pass && Boundary(boundary)
  {
  }

  lemma SeekBound(from: nat, to: nat)
    requires from < NUM_SECTORS && to < NUM_SECTORS
    ensures SeekTime(from, to) <= 31 * SEEK_TIME
  {
  }
}
