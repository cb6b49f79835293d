/**
 The migrator's flash engine: three passes over 4 KB sectors of a flash whose erases and writes
 may fail, or leave anything at all in the sector they touch without saying so.
*/
module FlashRewrite {
  const SECTOR: nat := 4096
  const BOOT_SECTORS: nat := 3

  type Sector = s: seq<bv8> | |s| == SECTOR witness seq(SECTOR, _ => 0)

  const ERASED: Sector := seq(SECTOR, _ => 0xFF)

  /** What writing data into a sector makes of it: bits can only be cleared, erasing sets them. */
  function Programmed(was: Sector, data: Sector): Sector {
    seq(SECTOR, i requires 0 <= i < SECTOR => was[i] & data[i])
  }

  lemma ErasedTakes(data: Sector)
    ensures Programmed(ERASED, data) == data
  {
    forall i | 0 <= i < SECTOR ensures Programmed(ERASED, data)[i] == data[i] {
      AllOnes(data[i]);
    }
  }

  lemma AllOnes(b: bv8)
    ensures 0xFF & b == b
  {
  }

  datatype Outcome = Green | Red

  /** The last of the sectors pass 3 writes is written even when the payload is shorter. */
  function Touched(count: nat): nat {
    if count > BOOT_SECTORS then count else BOOT_SECTORS
  }

  class Flash {
    var sectors: seq<Sector>
    /** Every erase or write so far: the sector, and the flash as it was just before. */
    ghost var history: seq<(nat, seq<Sector>)>
    /** Some driver call so far reported an error, or left something else in the sector than it was told to. */
    ghost var fault: bool

    constructor (sectors: seq<Sector>)
      ensures this.sectors == sectors && history == [] && !fault
    {
      this.sectors := sectors;
      history, fault := [], false;
    }

    /** SPIRead of one sector, with the cache off: the driver may report an error, but data it returns is right. */
    method Read(s: nat) returns (failed: bool, data: Sector)
      requires s < |sectors|
      modifies `fault
      ensures !failed ==> data == sectors[s]
      ensures fault == (old(fault) || failed)
    {
      failed := *;
      data := sectors[s];
      fault := fault || failed;
    }

    /** SPIEraseSector or SPIWrite, one sector to become `intended`: whatever it reports, it may hold anything after. */
    method Disturb(s: nat, intended: Sector) returns (failed: bool)
      requires s < |sectors|
      modifies this
      ensures |sectors| == |old(sectors)| && forall k :: 0 <= k < |sectors| && k != s ==> sectors[k] == old(sectors)[k]
      ensures history == old(history) + [(s, old(sectors))]
      ensures fault == (old(fault) || failed || sectors[s] != intended)
    {
      failed := *;
      var good: bool, next: Sector := *, *;
      if good {
        next := intended;
      }
      history := history + [(s, sectors)];
      sectors := sectors[s := next];
      fault := fault || failed || next != intended;
    }

    /** write_sector: on a driver that does what it is told, a copy. */
    method WriteSector(src: nat, dst: nat) returns (failed: bool)
      requires src < |sectors| && dst < |sectors|
      modifies this
      ensures |sectors| == |old(sectors)| && forall k :: 0 <= k < |sectors| && k != dst ==> sectors[k] == old(sectors)[k]
      ensures old(fault) || failed ==> fault
      ensures !fault ==> sectors[dst] == old(sectors)[src]
      ensures OnlyDisturbs(old(history), old(sectors), dst)
    {
      var data;
      failed, data := Read(src);
      if failed {
        return;
      }
      failed := Disturb(dst, ERASED);
      if failed {
        return;
      }
      failed := Disturb(dst, Programmed(sectors[dst], data));
      ErasedTakes(data);
    }

    /** Everything added to the history touched dst, with the other sectors as they were. */
    ghost predicate OnlyDisturbs(before: seq<(nat, seq<Sector>)>, was: seq<Sector>, dst: nat)
      reads this
    {
      && |before| <= |history| && history[..|before|] == before
      && forall k :: |before| <= k < |history| ==>
           history[k].0 == dst && |history[k].1| == |was| && forall i :: 0 <= i < |was| && i != dst ==> history[k].1[i] == was[i]
    }

    /** verify_sector: false means the two sectors were read and are equal; true that they differ, or a read failed. */
    method VerifySector(src: nat, dst: nat) returns (bad: bool)
      requires src < |sectors| && dst < |sectors|
      modifies `fault
      ensures !bad ==> sectors[dst] == sectors[src]
      ensures bad ==> fault || sectors[dst] != sectors[src]
      ensures old(fault) ==> fault
    {
      var a, b;
      bad, a := Read(src);
      if bad {
        return;
      }
      bad, b := Read(dst);
      if bad {
        return;
      }
      bad := Differ(a, b);
    }

    /** iram_diff: word by word. */
    method Differ(a: Sector, b: Sector) returns (r: bool)
      ensures r <==> a != b
    {
      for i := 0 to SECTOR / 4
        invariant a[..4 * i] == b[..4 * i]
      {
        if a[4 * i..4 * i + 4] != b[4 * i..4 * i + 4] {
          return true;
        }
        assert a[..4 * (i + 1)] == a[..4 * i] + a[4 * i..4 * i + 4];
        assert b[..4 * (i + 1)] == b[..4 * i] + b[4 * i..4 * i + 4];
      }
      assert a[..SECTOR] == a && b[..SECTOR] == b;
      r := false;
    }

    // ---- the three passes -----------------------------------------------------------------

    /** Low sectors lo..hi hold the payload that started out at src. */
    ghost predicate Copied(was: seq<Sector>, src: nat, lo: nat, hi: nat)
      reads this
    {
      Holds(sectors, was, src, lo, hi)
    }

    /** The payload, and everything else above the sectors being written, is as it was. */
    ghost predicate Above(was: seq<Sector>, count: nat)
      reads this
    {
      |sectors| == |was| && forall k :: Touched(count) <= k < |was| ==> sectors[k] == was[k]
    }

    /** Every write since `from` kept the order: bootloader after the rest, boot vector last of all. */
    ghost predicate BootLast(from: nat, was: seq<Sector>, src: nat, count: nat)
      reads this
    {
      from <= |history| && forall k :: from <= k < |history| ==> InOrder(history[k], was, src, count)
    }

    /** One write and its part of the promise. */
    method Step(src: nat, s: nat, count: nat, ghost from: nat, ghost was: seq<Sector>) returns (failed: bool)
      requires Room(|sectors|, src, count) && s < Touched(count) && Above(was, count) && BootLast(from, was, src, count)
      requires s < BOOT_SECTORS ==> Copied(was, src, BOOT_SECTORS, count)
      requires s == 0 ==> Copied(was, src, 1, Touched(count))
      modifies this
      ensures |sectors| == |was| && forall k :: 0 <= k < |was| && k != s ==> sectors[k] == old(sectors)[k]
      ensures Above(was, count) && BootLast(from, was, src, count)
      ensures old(fault) || failed ==> fault
      ensures !fault ==> sectors[s] == was[src + s]
    {
      ghost var before, h := sectors, history;
      failed := WriteSector(src + s, s);
      forall k | from <= k < |history| ensures InOrder(history[k], was, src, count) {
        if k < |h| {
          assert history[k] == h[k];
        }
      }
    }

    method WriteRest(src: nat, count: nat, ghost from: nat, ghost was: seq<Sector>) returns (failed: bool)
      requires Room(|sectors|, src, count) && Above(was, count) && BootLast(from, was, src, count)
      modifies this
      ensures Above(was, count) && BootLast(from, was, src, count)
      ensures forall k :: 0 <= k < BOOT_SECTORS ==> sectors[k] == old(sectors)[k]
      ensures old(fault) || failed ==> fault
      ensures !fault ==> Copied(was, src, BOOT_SECTORS, count)
    {
      var s := BOOT_SECTORS;
      while s < count
        invariant BOOT_SECTORS <= s && Above(was, count) && BootLast(from, was, src, count)
        invariant old(fault) ==> fault
        invariant !fault ==> Copied(was, src, BOOT_SECTORS, s)
        invariant forall k :: 0 <= k < BOOT_SECTORS ==> sectors[k] == old(sectors)[k]
      {
        failed := Step(src, s, count, from, was);
        if failed {
          return;
        }
        s := s + 1;
      }
      failed := false;
    }

    method VerifyRest(src: nat, count: nat, ghost was: seq<Sector>) returns (bad: bool)
      requires Room(|sectors|, src, count) && Above(was, count)
      modifies `fault
      ensures !bad ==> Copied(was, src, BOOT_SECTORS, count)
      ensures bad ==> fault || !Copied(was, src, BOOT_SECTORS, count)
      ensures old(fault) ==> fault
    {
      var s := BOOT_SECTORS;
      while s < count
        invariant old(fault) ==> fault
        invariant BOOT_SECTORS <= s && Copied(was, src, BOOT_SECTORS, s)
        invariant s <= Touched(count)
      {
        bad := VerifySector(src + s, s);
        if bad {
          return;
        }
        s := s + 1;
      }
      bad := false;
    }

    /** One boot sector: write, then read back. */
    method BootSector(src: nat, s: nat, count: nat, ghost from: nat, ghost was: seq<Sector>) returns (bad: bool)
      requires Room(|sectors|, src, count) && s < BOOT_SECTORS && Above(was, count) && BootLast(from, was, src, count)
      requires Copied(was, src, s + 1, Touched(count))
      modifies this
      ensures |sectors| == |was| && forall k :: 0 <= k < |was| && k != s ==> sectors[k] == old(sectors)[k]
      ensures Above(was, count) && BootLast(from, was, src, count)
      ensures !bad ==> Copied(was, src, s, Touched(count))
      ensures old(fault) || bad ==> fault
    {
      bad := Step(src, s, count, from, was);
      if bad {
        return;
      }
      bad := VerifySector(src + s, s);
    }

    /**
     migrator_do_migration. Green means low flash is the payload, and red that some driver call failed or
     garbled a sector. Whatever happens the payload area survives, and the boot vector is only ever
     touched when every later sector is already right.
    */
    method Migrate(src: nat, count: nat) returns (outcome: Outcome)
      requires Room(|sectors|, src, count)
      modifies this
      ensures Above(old(sectors), count)
      ensures BootLast(|old(history)|, old(sectors), src, count)
      ensures outcome == Green ==> Copied(old(sectors), src, 0, Touched(count))
      ensures outcome == Red ==> fault
      ensures old(fault) ==> fault
      ensures sectors[0] != old(sectors)[0] ==> Copied(old(sectors), src, 1, Touched(count))
    {
      ghost var was, from := sectors, |history|;
      outcome := Red;
      var failed := WriteRest(src, count, from, was);
      if failed {
        return;
      }
      failed := VerifyRest(src, count, was);
      if failed {
        return;
      }
      failed := BootSector(src, 2, count, from, was);
      if failed {
        return;
      }
      failed := BootSector(src, 1, count, from, was);
      if failed {
        return;
      }
      failed := BootSector(src, 0, count, from, was);
      if failed {
        return;
      }
      outcome := Green;
    }
  }

  /** The payload lies in the flash, above everything that gets written. */
  predicate Room(size: nat, src: nat, count: nat) {
    Touched(count) <= src && src + Touched(count) <= size
  }

  predicate Holds(now: seq<Sector>, was: seq<Sector>, src: nat, lo: nat, hi: nat) {
    |now| == |was| && forall k :: lo <= k < hi && k < |now| && src + k < |was| ==> now[k] == was[src + k]
  }

  /** A write seen against the flash as it was just before it. */
  predicate InOrder(write: (nat, seq<Sector>), was: seq<Sector>, src: nat, count: nat) {
    && write.0 < Touched(count)
    && (write.0 < BOOT_SECTORS ==> Holds(write.1, was, src, BOOT_SECTORS, count))
    && (write.0 == 0 ==> Holds(write.1, was, src, 1, Touched(count)))
  }
}
