/** The links' signing state as one process changes it in place, proved against the steps of `Signing`. */
module SigningLinks {
  import opened Bytes
  import opened Signing

  predicate IsSecret(bytes: seq<byte>) {
    exists b <- bytes :: b != 0
  }

  method AllZero(secret: seq<byte>) returns (zero: bool)
    ensures zero <==> !IsSecret(secret)
  {
    for i := 0 to |secret|
      invariant forall j :: 0 <= j < i ==> secret[j] == 0
    {
      if secret[i] != 0 {
        assert secret[i] in secret;
        return false;
      }
    }
    return true;
  }

  /** The body of a forked save: the new stored value, and whether it has to be written. */
  method SaveSigningTimestamp(stored: nat, copy: seq<Option<nat>>, now: nat) returns (key: nat, needSave: bool)
    ensures key == Saved(stored, copy, MavTime(now), 0)
    ensures needSave <==> key > stored
  {
    key, needSave := stored, false;
    var cap := MavTime(now);
    for i := 0 to |copy|
      invariant Saved(key, copy, cap, i) == Saved(stored, copy, cap, 0)
      invariant stored <= key && (needSave <==> key > stored)
    {
      if copy[i].Some? {
        var v := copy[i].value;
        if v > cap {
          v := cap;
        }
        if v > key {
          key, needSave := v, true;
        }
      }
    }
  }

  class Links {
    const channels: array<Option<nat>>
    const lastSave: array<nat>
    ghost var top: nat

    ghost predicate Valid() {
      channels.Length == CHANNELS && lastSave.Length == CHANNELS
    }

    /** The process's part of the system, beside the database, the clock and the forked saves. */
    ghost function View(stored: nat, now: nat, jobs: seq<seq<Option<nat>>>): System
      reads this, channels, lastSave
    {
      System(stored, now, channels[..], lastSave[..], jobs, top)
    }

    constructor (stored: nat, now: nat)
      ensures Valid() && fresh(channels) && fresh(lastSave) && View(stored, now, []) == Init(stored, now)
    {
      channels := new Option<nat>[CHANNELS](_ => None);
      lastSave := new nat[CHANNELS](_ => 0);
      top := 0;
    }

    /** A link starts: the key is looked up, and its timestamp loaded with the guard. */
    method LoadSigningKey(ch: nat, key: Option<(nat, seq<byte>)>, stored: nat, now: nat)
      requires Valid() && ch < CHANNELS && (key.Some? ==> key.value.0 == stored)
      modifies this`top, channels, lastSave
      ensures channels[..] ==
        LoadStep(old(View(stored, now, [])), ch, key.Some?, key.Some? && IsSecret(key.value.1)).channels
      ensures lastSave[..] == old(lastSave[..])[ch := 0]
      ensures top == Max(old(top), Highest(channels[..]))
    {
      lastSave[ch] := 0;
      if key.None? {
        if channels[ch].Some? {
          channels[ch] := Some(0);
        }
      } else {
        var (timestamp, secret) := key.value;
        var loaded := (timestamp + 15 * 100 * 1000) % TWO64;
        var nowMavlink := MavTime(now);
        var zero := AllZero(secret);
        if timestamp == 0 && zero {
          channels[ch] := None;
        } else {
          channels[ch] := Some(if nowMavlink > loaded then nowMavlink else loaded);
        }
      }
      top := Max(top, Highest(channels[..]));
    }

    /** At most every ten seconds: raises all signing links to the clock, and forks a save with a copy of them. */
    method UpdateSigningTimestamp(ch: nat, stored: nat, now: nat) returns (job: seq<seq<Option<nat>>>)
      requires Valid() && ch < CHANNELS
      modifies this`top, channels, lastSave
      ensures View(stored, now, job) == UpdateStep(old(View(stored, now, [])), ch)
    {
      if now - lastSave[ch] < 10 * SECOND {
        return [];
      }
      lastSave[ch] := now;
      var target := now / SECOND;
      if target > EPOCH_OFFSET {
        target := target - EPOCH_OFFSET;
      }
      target := target * (100 * 1000);
      for i := 0 to channels.Length
        invariant forall j :: 0 <= j < i ==> channels[j] == Raised(old(channels[..]), target)[j]
        invariant forall j :: i <= j < channels.Length ==> channels[j] == old(channels[..])[j]
        invariant lastSave[..] == old(lastSave[..])[ch := now]
        modifies channels
      {
        if channels[i].Some? && channels[i].value < target {
          channels[i] := Some(target);
        }
      }
      assert channels[..] == Raised(old(channels[..]), target);
      top := Max(top, Highest(channels[..]));
      job := [channels[..]];
    }
  }
}
