/** The receiver as the program has it: fields changed in place, a packed bitmap, and loops. */
module Binlog {
  import opened Bytes
  import opened BinlogSpec
  import opened BinlogInvariants

  /** The log directory of one port pair. */
  class FileSystem {
    var inodes: seq<seq<byte>>
    var dir: map<Name, nat>

    function View(): Disk
      reads this
    {
      Disk(inodes, dir)
    }

    constructor (disk: Disk)
      ensures View() == disk
    {
      inodes, dir := disk.inodes, disk.dir;
    }

    /** `fopen(name, "wb+")` */
    method Open(name: Name) returns (inode: nat)
      modifies this
      ensures (View(), inode) == OpenTruncate(old(View()), name)
    {
      if name in dir && dir[name] < |inodes| {
        inode := dir[name];
        inodes := inodes[inode := []];
      } else {
        inode := |inodes|;
        inodes := inodes + [[]];
        dir := dir[name := inode];
      }
    }

    /** `fseeko` and `fwrite` */
    method Write(inode: nat, offset: nat, data: seq<byte>)
      requires inode < |inodes|
      modifies this`inodes
      ensures inodes == old(inodes)[inode := WriteAt(old(inodes[inode]), offset, data)]
    {
      var file := inodes[inode];
      if data != [] {
        var rest := if offset + |data| < |file| then file[offset + |data|..] else [];
        if |file| < offset {
          file := file + Zeros(offset - |file|);
        } else {
          file := file[..offset];
        }
        file := file + data + rest;
      }
      inodes := inodes[inode := file];
    }
  }

  /** The bitmap grows in steps of 64 KiB. */
  const BITMAP_CHUNK: nat := 65536

  /** Bit `k` of a bitmap: eight to the byte, and bits beyond the end are clear. */
  predicate Marked(bitmap: seq<byte>, k: nat) {
    k / 8 < |bitmap| && bitmap[k / 8] & Bit(k % 8) != 0
  }

  /** The seqnos a bitmap denotes. */
  function Denoted(bitmap: seq<byte>): set<nat> {
    set k: nat | k < 8 * |bitmap| && Marked(bitmap, k)
  }

  /** `size` rounded up to whole chunks. */
  function Chunks(size: nat): nat {
    (size + BITMAP_CHUNK - 1) / BITMAP_CHUNK * BITMAP_CHUNK
  }

  lemma DenotedZeros(bitmap: seq<byte>, n: nat)
    ensures Denoted(bitmap + Zeros(n)) == Denoted(bitmap)
  {
    var grown := bitmap + Zeros(n);
    forall k: nat ensures Marked(grown, k) <==> Marked(bitmap, k) {
      if |bitmap| <= k / 8 < |grown| {
        assert grown[k / 8] == 0;
        NoBitOfZero(k % 8);
      }
    }
  }

  lemma DenotedSet(bitmap: seq<byte>, n: nat)
    requires n / 8 < |bitmap|
    ensures Denoted(bitmap[n / 8 := bitmap[n / 8] | Bit(n % 8)]) == Denoted(bitmap) + {n}
  {
    var marked := bitmap[n / 8 := bitmap[n / 8] | Bit(n % 8)];
    forall k: nat ensures Marked(marked, k) <==> k == n || Marked(bitmap, k) {
      if k / 8 == n / 8 {
        TestAfterSet(bitmap[n / 8], n % 8, k % 8);
      }
    }
  }

  /** The gap loop from `s` up to `next`, one seqno at a time. */
  function Walk(seen: set<nat>, nacks: map<nat, NackState>, s: nat, next: nat, now: int): map<nat, NackState>
    decreases next - s
  {
    if s >= next then nacks
    else Walk(seen, if s !in seen && s !in nacks then nacks[s := NackState(now, 0)] else nacks, s + 1, next, now)
  }

  lemma {:induction false} WalkQueues(seen: set<nat>, nacks: map<nat, NackState>, prev: nat, next: nat, now: int)
    ensures Walk(seen, nacks, prev + 1, next, now) == QueueGaps(seen, nacks, prev, next, now)
    decreases next - prev
  {
    var s := prev + 1;
    if s < next {
      var after := if s !in seen && s !in nacks then nacks[s := NackState(now, 0)] else nacks;
      WalkQueues(seen, after, s, next, now);
      assert GapSeqnos(seen, nacks, prev, next) ==
        GapSeqnos(seen, after, s, next) + if s !in seen && s !in nacks then {s} else {};
    } else {
      assert GapSeqnos(seen, nacks, prev, next) == {};
    }
  }

  class BinlogWriter {
    var fp: Option<nat>
    var seenBitmap: seq<byte>
    var highestSeen: nat
    var anyBlockSeen: bool
    var lastStartSent: int
    var targetSystem: nat
    var targetComponent: nat
    var pendingAcks: seq<nat>
    var nackState: map<nat, NackState>
    var currentFileSize: nat
    var otherSessionsBytes: nat
    var writesSinceQuotaRefresh: nat
    var fcSysidFilter: nat
    var lastSystemTimeBootMs: nat
    var pendingSessionN: uint32
    const fs: FileSystem
    ghost var log: seq<Event>
    ghost var past: seq<Session>

    ghost function View(): State
      reads this, fs
    {
      State(fp, Denoted(seenBitmap), highestSeen, anyBlockSeen, lastStartSent, targetSystem, targetComponent,
            pendingAcks, nackState, currentFileSize, otherSessionsBytes, writesSinceQuotaRefresh,
            fcSysidFilter, lastSystemTimeBootMs, pendingSessionN, fs.View(), log, past)
    }

    /** Whole chunks of bitmap, at most 720896 bytes of them, and `highest_seen + 1` in range. */
    ghost predicate Bounded()
      reads this, fs
    {
      && |seenBitmap| % BITMAP_CHUNK == 0 && |seenBitmap| <= 720896
      && highestSeen <= 5368708
      && (fp.Some? ==> fp.value < |fs.inodes|)
    }

    /** The invariant of every run. */
    ghost predicate Valid()
      reads this, fs
    {
      Bounded() && Inv(View())
    }

    constructor (filter: nat, fs: FileSystem)
      ensures this.fs == fs && Valid() && View() == Init(filter, fs.View())
    {
      fp, seenBitmap, highestSeen, anyBlockSeen, lastStartSent := None, [], 0, false, 0;
      targetSystem, targetComponent, pendingAcks, nackState := 0, 0, [], map[];
      currentFileSize, otherSessionsBytes, writesSinceQuotaRefresh := 0, 0, 0;
      fcSysidFilter, lastSystemTimeBootMs, pendingSessionN := filter, 0, 0;
      this.fs := fs;
      log, past := [], [];
      new;
      InitInv(filter, fs.View());
    }

    // -------------------------------------------------------------- the bitmap

    predicate SeqnoSeen(seqno: nat)
      reads this`seenBitmap
      ensures SeqnoSeen(seqno) <==> seqno in Denoted(seenBitmap)
    {
      var index := seqno / 8;
      if index >= |seenBitmap| then false else seenBitmap[index] & Bit(seqno % 8) != 0
    }

    method MarkSeqnoSeen(seqno: nat)
      requires seqno <= 5368708 && |seenBitmap| % BITMAP_CHUNK == 0 && |seenBitmap| <= 720896
      modifies this`seenBitmap
      ensures Denoted(seenBitmap) == old(Denoted(seenBitmap)) + {seqno}
      ensures |seenBitmap| == if seqno / 8 < old(|seenBitmap|) then old(|seenBitmap|) else Chunks(seqno / 8 + 1)
      ensures |seenBitmap| % BITMAP_CHUNK == 0 && |seenBitmap| <= 720896
    {
      var index := seqno / 8;
      if index >= |seenBitmap| {
        var want := index + 1;
        var round := (want + 65535) / 65536 * 65536;
        DenotedZeros(seenBitmap, round - |seenBitmap|);
        seenBitmap := seenBitmap + Zeros(round - |seenBitmap|);
      }
      DenotedSet(seenBitmap, seqno);
      seenBitmap := seenBitmap[index := seenBitmap[index] | Bit(seqno % 8)];
    }

    // -------------------------------------------------------------- files

    /** `open`: false leaves everything as it was. */
    method OpenFile(sessionN: uint32, e: BlockEnv) returns (ok: bool)
      requires fp.None?
      modifies this`fp, this`currentFileSize, this`otherSessionsBytes, this`writesSinceQuotaRefresh, fs
      ensures ok == e.openOk
      ensures !ok ==> View() == old(View())
      ensures ok ==> fp.Some? && fp.value < |fs.inodes| && (fs.View(), fp.value) == OpenTruncate(old(fs.View()), Name(e.day, sessionN, Bin))
      ensures ok ==> currentFileSize == 0 && otherSessionsBytes == e.openScan && writesSinceQuotaRefresh == 0
    {
      if !e.openOk {
        return false;
      }
      var inode := fs.Open(Name(e.day, sessionN, Bin));
      fp := Some(inode);
      currentFileSize := 0;
      RefreshOtherSessionsBytes(e.openScan);
      writesSinceQuotaRefresh := 0;
      return true;
    }

    method RefreshOtherSessionsBytes(scan: nat)
      modifies this`otherSessionsBytes
      ensures otherSessionsBytes == scan
    {
      otherSessionsBytes := scan;
    }

    // -------------------------------------------------------------- blocks

    method QueueGapNacks(prevHighest: nat, newSeqno: nat, now: int)
      requires prevHighest < newSeqno
      modifies this`nackState
      ensures nackState == QueueGaps(Denoted(seenBitmap), old(nackState), prevHighest, newSeqno, now)
    {
      ghost var seen, nacks := Denoted(seenBitmap), nackState;
      WalkQueues(seen, nacks, prevHighest, newSeqno, now);
      var s := prevHighest + 1;
      while s < newSeqno
        invariant prevHighest < s <= newSeqno
        invariant Walk(seen, nackState, s, newSeqno, now) == Walk(seen, nacks, prevHighest + 1, newSeqno, now)
      {
        if !SeqnoSeen(s) && s !in nackState {
          nackState := nackState[s := NackState(now, 0)];
        }
        s := s + 1;
      }
    }

    /** The tracked size, and the periodic scan of the other sessions. */
    method CountWrite(seqno: nat, rescan: nat)
      modifies this`currentFileSize, this`otherSessionsBytes, this`writesSinceQuotaRefresh
      ensures View() == BinlogSpec.CountWrite(old(View()), seqno, rescan)
    {
      currentFileSize := Max(currentFileSize, seqno * BLOCK_BYTES + BLOCK_BYTES);
      writesSinceQuotaRefresh := writesSinceQuotaRefresh + 1;
      if writesSinceQuotaRefresh >= QUOTA_REFRESH_WRITES {
        RefreshOtherSessionsBytes(rescan);
        writesSinceQuotaRefresh := 0;
      }
    }

    /** The bitmap, the NACK map and `highest_seen`; returns what is newly missing. */
    method UpdateSeen(seqno: nat, now: int) returns (ghost gap: set<nat>)
      requires Bounded() && seqno <= 5368708 && anyBlockSeen
      modifies this`seenBitmap, this`nackState, this`highestSeen
      ensures Bounded() && Denoted(seenBitmap) == old(Denoted(seenBitmap)) + {seqno}
      ensures var jump := seqno > Wrap32(old(highestSeen) + 1);
              && gap == (if jump then GapSeqnos(Denoted(seenBitmap), old(nackState) - {seqno}, old(highestSeen), seqno) else {})
              && nackState == if jump then QueueGaps(Denoted(seenBitmap), old(nackState) - {seqno}, old(highestSeen), seqno, now)
                              else old(nackState) - {seqno}
      ensures highestSeen == Max(old(highestSeen), seqno)
    {
      var wasSeen := SeqnoSeen(seqno);
      MarkSeqnoSeen(seqno);
      nackState := nackState - {seqno};
      gap := {};
      if anyBlockSeen && seqno > Wrap32(highestSeen + 1) && !(highestSeen == 0 && !wasSeen && seqno == 0) {
        gap := GapSeqnos(Denoted(seenBitmap), nackState, highestSeen, seqno);
        QueueGapNacks(highestSeen, seqno, now);
      }
      if seqno >= highestSeen {
        highestSeen := seqno;
      }
    }

    method Track(seqno: nat, now: int)
      requires Bounded() && seqno <= 5368708 && anyBlockSeen
      modifies this`seenBitmap, this`nackState, this`highestSeen, this`log
      ensures Bounded() && View() == BinlogSpec.Track(old(View()), seqno, now)
    {
      hide QueueGaps, GapSeqnos, Denoted;
      ghost var gap := UpdateSeen(seqno, now);
      log := log + [GapNoticed(gap)];
    }

    method QueueAck(seqno: nat, ghost data: Payload)
      modifies this`pendingAcks, this`log
      ensures View() == BinlogSpec.QueueAck(old(View()), seqno, data)
    {
      pendingAcks := pendingAcks + [seqno];
      log := log + [Accepted(seqno, data)];
    }

    /** The bookkeeping of a block that is in the file. */
    method BookBlock(msg: BlockMsg, e: BlockEnv)
      requires Bounded() && msg.seqno <= 5368708 && anyBlockSeen
      modifies this
      ensures Bounded() && View() == Book(old(View()), msg, e)
    {
      CountWrite(msg.seqno, e.rescan);
      Track(msg.seqno, e.now);
      QueueAck(msg.seqno, msg.data);
    }

    /** The vehicle's identity is taken from the first block that passes the caps. */
    method LatchVehicle(msg: BlockMsg)
      modifies this`targetSystem, this`targetComponent, this`anyBlockSeen
      ensures View() == Latch(old(View()), msg) && anyBlockSeen
    {
      if !anyBlockSeen {
        targetSystem := msg.sysid;
        targetComponent := msg.compid;
        anyBlockSeen := true;
      }
    }

    /** `handle_block` after the strict-start gate. */
    method HandleOpenBlock(msg: BlockMsg, e: BlockEnv)
      requires Bounded() && fp.Some?
      modifies this, fs
      ensures Bounded() && View() == HandleOpen(old(View()), msg, e)
    {
      var offset := msg.seqno * BLOCK_BYTES;
      var prospectiveSize := if currentFileSize < offset + BLOCK_BYTES then offset + BLOCK_BYTES else currentFileSize;
      var expansion := prospectiveSize - currentFileSize;
      if expansion > MAX_FORWARD_JUMP_BYTES {
        return;
      }
      if otherSessionsBytes + prospectiveSize > MAX_PER_PORT2_BYTES {
        return;
      }
      LatchVehicle(msg);
      if !e.seekOk {
        return;
      }
      fs.Write(fp.value, offset, msg.data[..Min(e.wrote, BLOCK_BYTES)]);
      assert View() == WriteBlock(Latch(old(View()), msg), msg, e);
      if e.wrote < BLOCK_BYTES {
        return;
      }
      BookBlock(msg, e);
    }

    method HandleGatedBlock(sessionN: uint32, msg: BlockMsg, e: BlockEnv)
      requires Bounded()
      modifies this, fs
      ensures Bounded() && View() == BinlogSpec.HandleBlock(old(View()), sessionN, msg, e)
    {
      hide HandleOpen, OpenTruncate, Denoted;
      if fp.None? {
        if msg.seqno != 0 {
          return;
        }
        var n := if pendingSessionN != 0 then pendingSessionN else sessionN;
        var ok := OpenFile(n, e);
        if !ok {
          return;
        }
        pendingSessionN := 0;
        assert View() == BinlogSpec.Open(old(View()), sessionN, e);
      }
      HandleOpenBlock(msg, e);
    }

    method HandleBlock(sessionN: uint32, msg: BlockMsg, e: BlockEnv)
      requires Valid()
      modifies this, fs
      ensures Valid() && View() == BinlogSpec.HandleBlock(old(View()), sessionN, msg, e)
    {
      HandleBlockInv(View(), sessionN, msg, e);
      HandleGatedBlock(sessionN, msg, e);
    }

    // -------------------------------------------------------------- the periodic pump

    method SendStartPacket(now: int, sent: bool) returns (ok: bool)
      modifies this`log
      ensures ok == sent && log == old(log) + [StartSent(now, sent)]
    {
      log := log + [StartSent(now, sent)];
      ok := sent;
    }

    method DropStaleNackState(now: int, order: seq<nat>)
      requires forall k :: k in nackState <==> k in order
      modifies this`nackState, this`log
      ensures nackState == old(nackState) - StaleKeys(old(View()), now)
      ensures log == old(log) + [Abandoned(StaleKeys(old(View()), now))]
    {
      ghost var stale := StaleKeys(View(), now);
      var i := 0;
      while i < |order|
        invariant 0 <= i <= |order|
        invariant nackState == old(nackState) - (set k | k in stale && k in order[..i])
        invariant log == old(log)
      {
        var k := order[i];
        if k in nackState {
          assert k in stale <==> Stale(old(View()), k, now);
          var drop := false;
          if SeqnoSeen(k) {
            drop := true;
          } else if now - nackState[k].firstSeen > NACK_GIVEUP_US {
            drop := true;
          } else if highestSeen >= k && highestSeen - k > NACK_GIVEUP_BLOCKS {
            drop := true;
          }
          if drop {
            nackState := nackState - {k};
          }
        }
        assert order[..i + 1] == order[..i] + [k];
        i := i + 1;
      }
      assert order[..|order|] == order;
      assert (set k | k in stale && k in order) == stale;
      log := log + [Abandoned(stale)];
    }

    method MaybeSendStart(now: Micros, period: int, sent: bool)
      modifies this`lastStartSent, this`log
      ensures View() == MaybeStart(old(View()), now, period, sent)
    {
      if now - lastStartSent >= period {
        var ok := SendStartPacket(now, sent);
        if ok {
          lastStartSent := now;
        }
      }
    }

    method Pump(now: Micros, order: seq<nat>, ok: nat -> bool)
      requires Bounded() && forall k :: k in nackState <==> k in order
      modifies this
      ensures Bounded() && View() == BinlogSpec.Tick(old(View()), now, order, ok)
    {
      hide MaybeStart, DrainAcks, BinlogSpec.Renack, StaleKeys, Denoted;
      if !anyBlockSeen {
        MaybeSendStart(now, START_REPEAT_US, ok(0));
        return;
      }
      MaybeSendStart(now, START_KEEPALIVE_US, ok(0));
      if fp.None? {
        return;
      }
      var sends := DrainPendingAcks(ok);
      DropStaleNackState(now, order);
      Renack(order, now, ok, sends);
    }

    /** `order` is the iteration order of the hash map, `ok(i)` the outcome of the i-th send of this tick. */
    method Tick(now: Micros, order: seq<nat>, ok: nat -> bool)
      requires Valid() && forall k :: k in nackState <==> k in order
      modifies this
      ensures Valid() && View() == BinlogSpec.Tick(old(View()), now, order, ok)
    {
      TickInv(View(), now, order, ok);
      Pump(now, order, ok);
    }

    method DrainPendingAcks(ok: nat -> bool) returns (sends: nat)
      modifies this`pendingAcks, this`log
      ensures View() == DrainAcks(old(View()), ok, 1)
      ensures sends == 1 + |old(pendingAcks)|
    {
      ghost var target := DrainAcks(View(), ok, 1);
      sends := 1;
      while pendingAcks != []
        invariant DrainAcks(View(), ok, sends) == target
        invariant sends + |pendingAcks| == 1 + |old(pendingAcks)|
        decreases |pendingAcks|
      {
        ghost var before := View();
        var s := pendingAcks[0];
        pendingAcks := pendingAcks[1..];
        log := log + [AckSent(s, ok(sends))];
        assert View() == SendAck(before, ok(sends));
        sends := sends + 1;
      }
    }

    method Renack(order: seq<nat>, now: Micros, ok: nat -> bool, first: nat)
      modifies this`nackState, this`log
      ensures View() == BinlogSpec.Renack(old(View()), order, now, MAX_NACKS_PER_TICK, ok, first)
    {
      ghost var target := BinlogSpec.Renack(View(), order, now, MAX_NACKS_PER_TICK, ok, first);
      var nackBudget := MAX_NACKS_PER_TICK;
      var sends := first;
      var j := 0;
      while j < |order|
        invariant 0 <= j <= |order|
        invariant BinlogSpec.Renack(View(), order[j..], now, nackBudget, ok, sends) == target
      {
        if nackBudget == 0 {
          break;
        }
        var k := order[j];
        assert order[j..][0] == k && order[j..][1..] == order[j + 1..];
        if k in nackState && !Throttled(nackState[k], now) {
          ghost var before := View();
          log := log + [NackSent(k, now, ok(sends))];
          if ok(sends) {
            nackState := nackState[k := nackState[k].(lastSent := now)];
            nackBudget := nackBudget - 1;
          }
          assert View() == SendNack(before, k, now, ok(sends));
          sends := sends + 1;
        }
        j := j + 1;
      }
    }

    // -------------------------------------------------------------- reboot detection

    /** `listing` is what a scan of the day's directory finds. */
    method Observe(m: UserMsg, day: int, listing: seq<uint32>)
      requires Valid() && forall n :: n in listing <==> n in SessionsOn(fs.dir, day)
      modifies this
      ensures Valid() && View() == BinlogSpec.Observe(old(View()), m, day)
    {
      ObserveInv(View(), m, day);
      Watch(m, day, listing);
    }

    method Watch(m: UserMsg, day: int, listing: seq<uint32>)
      requires Bounded() && forall n :: n in listing <==> n in SessionsOn(fs.dir, day)
      modifies this
      ensures Bounded() && View() == BinlogSpec.Observe(old(View()), m, day)
    {
      hide NextSession, SessionsOn, Rotate, Denoted;
      if !m.isSystemTime {
        return;
      }
      if !m.fromAutopilot {
        return;
      }
      if fcSysidFilter != 0 && m.sysid != fcSysidFilter {
        return;
      }
      if lastSystemTimeBootMs != 0
         && Wrap32(m.bootMs + REBOOT_TIME_BACKWARD_MS) <= lastSystemTimeBootMs
         && fp.Some?
      {
        RotateSession(day, listing);
      }
      lastSystemTimeBootMs := m.bootMs;
    }

    /** Close, forget the session, and choose the number of the next one. */
    method RotateForReboot(day: int, listing: seq<uint32>)
      requires fp.Some? && forall n :: n in listing <==> n in SessionsOn(fs.dir, day)
      modifies this`fp, this`seenBitmap, this`highestSeen, this`pendingAcks, this`nackState, this`lastStartSent
      modifies this`lastSystemTimeBootMs, this`pendingSessionN, this`log, this`past
      ensures fp == None && seenBitmap == [] && highestSeen == 0 && pendingAcks == [] && nackState == map[]
      ensures lastStartSent == 0 && lastSystemTimeBootMs == 0
      ensures pendingSessionN == NextSession(fs.dir, day)
      ensures log == [] && past == old(past) + [Session(old(log), old(pendingAcks), old(fp.value))]
    {
      past := past + [Session(log, pendingAcks, fp.value)];
      log := [];
      Close();
      seenBitmap := [];
      highestSeen := 0;
      pendingAcks := [];
      nackState := map[];
      lastStartSent := 0;
      lastSystemTimeBootMs := 0;
      pendingSessionN := NextSessionN(listing, SessionsOn(fs.dir, day));
    }

    /** The rotation as one step on values. */
    method RotateSession(day: int, listing: seq<uint32>)
      requires fp.Some? && forall n :: n in listing <==> n in SessionsOn(fs.dir, day)
      modifies this
      ensures fp.None? && seenBitmap == [] && highestSeen == 0 && View() == Rotate(old(View()), day)
    {
      hide Denoted, NextSession, SessionsOn;
      RotateForReboot(day, listing);
      DenotedNothing();
    }

    method Close()
      modifies this`fp
      ensures fp.None?
    {
      fp := None;
    }
  }

  lemma DenotedNothing()
    ensures Denoted([]) == {}
  {
  }

  /** `next_session_n` over a directory listing: one more than the largest number, in 32 bits. */
  method NextSessionN(listing: seq<uint32>, ghost sessions: set<uint32>) returns (n: uint32)
    requires forall k :: k in listing <==> k in sessions
    ensures n == Wrap32(Highest(sessions) + 1)
  {
    var highest: uint32 := 0;
    for i := 0 to |listing|
      invariant forall j :: 0 <= j < i ==> listing[j] <= highest
      invariant highest == 0 || highest in listing
    {
      if listing[i] > highest {
        highest := listing[i];
      }
    }
    assert forall k :: k in sessions ==> k <= highest;
    n := Wrap32(highest + 1);
  }
}
