// How long a disk request takes: seeking at 500 ticks a track, rotating at
// 500 ticks a sector, 32 sectors a track, and a buffer for the current track.
module DiskTiming {
  import opened Layout
  import Interrupts

  datatype Head = Head(lastSector: nat, bufferInit: nat)

  // abs(newTrack - oldTrack) * SeekTime
  function SeekTime(h: Head, newSector: nat): (t: nat) {
    var a, b := newSector / 32, h.lastSector / 32;
    (if a > b then a - b else b - a) * 500
  }

  // Ticks up to the next sector boundary.
  function Rounding(time: nat): (r: nat)
    ensures r < 500 && (time + r) % 500 == 0
  {
    var over := time % 500;
    if over > 0 then 500 - over else 0
  }

  function ModuloDiff(to: nat, from: nat): (d: nat)
    ensures d < 32 && (from + d) % 32 == to % 32
  {
    Rotated(to, from);
    (to % 32 - from % 32 + 32) % 32
  }

  lemma Rotated(to: nat, from: nat)
    ensures (from + (to % 32 - from % 32 + 32) % 32) % 32 == to % 32
  {
  }

  // The first boundary after the seek.
  function TimeAfter(h: Head, now: nat, newSector: nat): (t: nat)
    ensures t >= now && t % 500 == 0
  {
    var arrived := now + SeekTime(h, newSector);
    arrived + Rounding(arrived)
  }

  predicate Buffered(h: Head, now: nat, newSector: nat)
    requires h.bufferInit <= TimeAfter(h, now, newSector)
  {
    && SeekTime(h, newSector) == 0
    && (TimeAfter(h, now, newSector) - h.bufferInit) / 500 > ModuloDiff(newSector, h.bufferInit / 500)
  }

  function Latency(h: Head, now: nat, newSector: nat, writing: bool): (t: nat)
    requires h.bufferInit <= now
  {
    if !writing && Buffered(h, now, newSector) then 500
    else
      var after := TimeAfter(h, now, newSector);
      after - now + ModuloDiff(newSector, after / 500) * 500 + 500
  }

  function Updated(h: Head, now: nat, newSector: nat): Head {
    Head(newSector, if SeekTime(h, newSector) != 0 then TimeAfter(h, now, newSector) else h.bufferInit)
  }

  // At time t the head has just passed all of sector s of its track.
  predicate JustPassed(t: nat, s: nat) { t % 500 == 0 && t >= 500 && (t / 500 - 1) % 32 == s % 32 }

  lemma PassedAfter(after: nat, s: nat, d: nat)
    requires after % 500 == 0 && (after / 500 + d) % 32 == s % 32
    ensures JustPassed(after + d * 500 + 500, s)
  {
  }

  // A request that is not served from the buffer ends on a sector boundary
  // just when the sector has passed under the head, and at the first such
  // moment after the seek.
  lemma EndsPastSector(h: Head, now: nat, newSector: nat, writing: bool)
    requires h.bufferInit <= now && (writing || !Buffered(h, now, newSector))
    ensures JustPassed(now + Latency(h, now, newSector, writing), newSector)
    ensures forall t :: TimeAfter(h, now, newSector) + 500 <= t && JustPassed(t, newSector) ==>
              now + Latency(h, now, newSector, writing) <= t
  {
    hide ModuloDiff, JustPassed, TimeAfter;
    var after := TimeAfter(h, now, newSector);
    PassedAfter(after, newSector, ModuloDiff(newSector, after / 500));
    forall t: nat | after + 500 <= t && JustPassed(t, newSector)
      ensures after + ModuloDiff(newSector, after / 500) * 500 + 500 <= t
    {
      NoEarlier(after, newSector, ModuloDiff(newSector, after / 500), t);
    }
  }

  lemma NoEarlier(after: nat, s: nat, d: nat, t: nat)
    requires after % 500 == 0 && d < 32 && (after / 500 + d) % 32 == s % 32
    requires after + 500 <= t && JustPassed(t, s)
    ensures after + d * 500 + 500 <= t
  {
  }

  // A request served from the buffer is for a sector that passed under the
  // head since the buffer was last emptied.
  lemma BufferHasSector(h: Head, now: nat, newSector: nat)
    requires h.bufferInit <= now && h.bufferInit % 500 == 0 && Buffered(h, now, newSector)
    ensures var passed := h.bufferInit + ModuloDiff(newSector, h.bufferInit / 500) * 500 + 500;
            h.bufferInit < passed <= TimeAfter(h, now, newSector) && JustPassed(passed, newSector)
  {
  }

  // When the head is over the sector's track: a seek takes 500 ticks a track.
  function Arrival(h: Head, now: nat, newSector: nat): nat {
    var tracks := newSector / 32 - h.lastSector / 32;
    now + 500 * (if tracks < 0 then -tracks else tracks)
  }

  lemma FirstBoundary(h: Head, now: nat, newSector: nat, t: nat)
    ensures var after, a := TimeAfter(h, now, newSector), Arrival(h, now, newSector);
            after % 500 == 0 && a <= after < a + 500 && (t % 500 == 0 && t >= a ==> t >= after)
  {
  }

  // The sector has passed under the head, all of it, since the buffer was last
  // emptied and up to the first boundary from now on.
  ghost predicate InBuffer(h: Head, now: nat, newSector: nat) {
    && newSector / 32 == h.lastSector / 32
    && exists t: nat :: h.bufferInit + 500 <= t < now + 500 && JustPassed(t, newSector)
  }

  lemma BufferedIff(h: Head, now: nat, newSector: nat)
    requires h.bufferInit <= now && h.bufferInit % 500 == 0
    ensures Buffered(h, now, newSector) <==> InBuffer(h, now, newSector)
  {
    hide ModuloDiff, TimeAfter;
    var d := ModuloDiff(newSector, h.bufferInit / 500);
    var passed := h.bufferInit + d * 500 + 500;
    SameTrack(h, newSector);
    FirstBoundary(h, now, newSector, passed);
    PassedAfter(h.bufferInit, newSector, d);
    if InBuffer(h, now, newSector) {
      var t: nat :| h.bufferInit + 500 <= t < now + 500 && JustPassed(t, newSector);
      NoEarlier(h.bufferInit, newSector, d, t);
      Rounded(t, now);
    }
  }

  lemma SameTrack(h: Head, newSector: nat)
    ensures SeekTime(h, newSector) == 0 <==> newSector / 32 == h.lastSector / 32
  {
  }

  lemma Rounded(t: nat, now: nat)
    requires t % 500 == 0 && t < now + 500
    ensures forall after: nat :: after % 500 == 0 && now <= after < now + 500 ==> t <= after
  {
  }

  // A read that the track buffer can serve takes the transfer alone.  Any other
  // request is done at the first moment when the whole sector has passed under
  // the head after the seek.
  lemma LatencyExact(h: Head, now: nat, newSector: nat, writing: bool)
    requires h.bufferInit <= now && h.bufferInit % 500 == 0
    ensures if !writing && InBuffer(h, now, newSector) then Latency(h, now, newSector, writing) == 500
            else
              var done := now + Latency(h, now, newSector, writing);
              && JustPassed(done, newSector) && done >= Arrival(h, now, newSector) + 500
              && forall t :: t >= Arrival(h, now, newSector) + 500 && JustPassed(t, newSector) ==> done <= t
  {
    hide ModuloDiff, TimeAfter, JustPassed, Buffered, InBuffer;
    BufferedIff(h, now, newSector);
    if writing || !Buffered(h, now, newSector) {
      EndsPastSector(h, now, newSector, writing);
      FirstBoundary(h, now, newSector, 0);
      forall t: nat | t >= Arrival(h, now, newSector) + 500 && JustPassed(t, newSector)
        ensures TimeAfter(h, now, newSector) + 500 <= t
      {
        OnBoundary(t, newSector);
        FirstBoundary(h, now, newSector, t - 500);
      }
    }
  }

  lemma OnBoundary(t: nat, s: nat)
    requires JustPassed(t, s)
    ensures t >= 500 && t % 500 == 0 && (t - 500) % 500 == 0
  {
  }

  // The head stays over the last sector asked for, and the buffer is emptied
  // when it leaves a track, to start at the first boundary on the new one.
  lemma UpdatedExact(h: Head, now: nat, newSector: nat)
    ensures Updated(h, now, newSector).lastSector == newSector
    ensures newSector / 32 == h.lastSector / 32 ==> Updated(h, now, newSector).bufferInit == h.bufferInit
    ensures newSector / 32 != h.lastSector / 32 ==>
              var b, a := Updated(h, now, newSector).bufferInit, Arrival(h, now, newSector);
              b % 500 == 0 && a <= b < a + 500
  {
    hide TimeAfter;
    SameTrack(h, newSector);
    FirstBoundary(h, now, newSector, 0);
  }

  // Never less than the transfer; never more than the longest seek, the
  // alignment, one rotation less a sector, and the transfer.
  lemma LatencyBounds(h: Head, now: nat, newSector: nat, writing: bool)
    requires h.bufferInit <= now && h.lastSector < 1024 && newSector < 1024
    ensures 500 <= Latency(h, now, newSector, writing) <= 31 * 500 + 499 + 31 * 500 + 500
    ensures Latency(h, now, newSector, writing) <= SeekTime(h, newSector) + 499 + 31 * 500 + 500
  {
  }

  // --------------------------------------------------------- the device

  class Disk {
    const sectors: array<Sector>
    var lastSector: nat
    var bufferInit: nat
    var active: bool
    ghost var doneAt: nat            // when the last request is complete

    ghost predicate Valid()
      reads this
    {
      sectors.Length == 1024 && lastSector < 1024 && bufferInit % 500 == 0 && bufferInit <= doneAt
    }

    ghost function Value(): Head
      reads this
    {
      Head(lastSector, bufferInit)
    }

    constructor ()
      ensures Valid() && Value() == Head(0, 0) && !active && doneAt == 0 && fresh(sectors)
    {
      sectors := new Sector[1024](i => seq(128, k => 0));
      lastSector, bufferInit, active, doneAt := 0, 0, false, 0;
    }

    method TimeToSeek(newSector: nat, totalTicks: nat) returns (seek: nat, rotation: nat)
      ensures seek == SeekTime(Value(), newSector) && rotation == Rounding(totalTicks + seek)
    {
      var newTrack := newSector / 32;
      var oldTrack := lastSector / 32;
      seek := (if newTrack > oldTrack then newTrack - oldTrack else oldTrack - newTrack) * 500;
      var over := (totalTicks + seek) % 500;
      rotation := 0;
      if over > 0 {
        rotation := 500 - over;
      }
    }

    method ComputeLatency(newSector: nat, writing: bool, totalTicks: nat) returns (ticks: nat)
      requires bufferInit <= totalTicks
      ensures ticks == Latency(Value(), totalTicks, newSector, writing)
    {
      hide ModuloDiff, Rounding;
      var seek, rotation := TimeToSeek(newSector, totalTicks);
      var timeAfter := totalTicks + seek + rotation;
      if !writing && seek == 0 && (timeAfter - bufferInit) / 500 > ModuloDiff(newSector, bufferInit / 500) {
        return 500;
      }
      rotation := rotation + ModuloDiff(newSector, timeAfter / 500) * 500;
      return seek + rotation + 500;
    }

    method UpdateLast(newSector: nat, totalTicks: nat)
      modifies this
      ensures Value() == Updated(old(Value()), totalTicks, newSector) && active == old(active) && doneAt == old(doneAt)
    {
      hide Rounding;
      var seek, rotate := TimeToSeek(newSector, totalTicks);
      if seek != 0 {
        bufferInit := totalTicks + seek + rotate;
      }
      lastSector := newSector;
    }

    // A read request, when no other is going on: the data is there at once,
    // and the interrupt that says so is to be scheduled.
    method ReadRequest(sectorNumber: nat, totalTicks: nat) returns (data: Sector, done: Interrupts.Request)
      requires Valid() && !active && sectorNumber < 1024 && doneAt <= totalTicks      // the source's ASSERTs
      modifies this
      ensures Valid() && active && doneAt == totalTicks + done.fromNow
      ensures data == sectors[sectorNumber]
      ensures done.fromNow == Latency(old(Value()), totalTicks, sectorNumber, false) && done.kind == Interrupts.DISK_INT
      ensures Value() == Updated(old(Value()), totalTicks, sectorNumber)
    {
      done := Start(sectorNumber, false, totalTicks);
      data := sectors[sectorNumber];
    }

    method WriteRequest(sectorNumber: nat, data: Sector, totalTicks: nat) returns (done: Interrupts.Request)
      requires Valid() && !active && sectorNumber < 1024 && doneAt <= totalTicks      // the source's ASSERTs
      modifies this, sectors
      ensures Valid() && active && doneAt == totalTicks + done.fromNow
      ensures sectors[..] == old(sectors[..])[sectorNumber := data]
      ensures done.fromNow == Latency(old(Value()), totalTicks, sectorNumber, true) && done.kind == Interrupts.DISK_INT
      ensures Value() == Updated(old(Value()), totalTicks, sectorNumber)
    {
      done := Start(sectorNumber, true, totalTicks);
      sectors[sectorNumber] := data;
    }

    // What the two have in common.
    method Start(sectorNumber: nat, writing: bool, totalTicks: nat) returns (done: Interrupts.Request)
      requires Valid() && !active && sectorNumber < 1024 && doneAt <= totalTicks
      modifies this
      ensures Valid() && active && doneAt == totalTicks + done.fromNow
      ensures done.fromNow == Latency(old(Value()), totalTicks, sectorNumber, writing)
      ensures done.kind == Interrupts.DISK_INT
      ensures Value() == Updated(old(Value()), totalTicks, sectorNumber)
    {
      hide ModuloDiff, Rounding;
      var ticks := ComputeLatency(sectorNumber, writing, totalTicks);
      BufferKept(Value(), totalTicks, sectorNumber, writing);
      LatencyBounds(Value(), totalTicks, sectorNumber, writing);
      active := true;
      UpdateLast(sectorNumber, totalTicks);
      doneAt := totalTicks + ticks;
      done := Interrupts.Request(ticks, Interrupts.DISK_INT);
    }

    method CallBack()
      requires Valid()
      modifies this`active
      ensures Valid() && !active
    {
      active := false;
    }
  }

  // When the request is done the track buffer has started to fill, so a later
  // request never asks for a time before that.
  lemma BufferKept(h: Head, now: nat, newSector: nat, writing: bool)
    requires h.bufferInit <= now && h.bufferInit % 500 == 0
    ensures Updated(h, now, newSector).bufferInit <= now + Latency(h, now, newSector, writing)
    ensures Updated(h, now, newSector).bufferInit % 500 == 0
  {
  }
}
