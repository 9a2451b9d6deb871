/**
 Reading a jail that was cut off. What has been read from some bytes is read from more bytes
 just the same, so no part of a marshalled jail but the whole is taken for a jail.
 */
module Truncated {
  import opened Words
  import opened Jails
  import opened Marshal

  /** Reading more bytes gives the same value, and leaves more. */
  ghost predicate More<T(!new)>(a: Read<T>, b: Read<T>, x: Bytes) {
    a.Got? ==> b == Got(a.value, a.rest + x)
  }

  lemma {:induction false} StrlenMore(b: Bytes, x: Bytes, i: nat)
    requires i <= |b| && Strlen(b, i) < |b|
    ensures Strlen(b + x, i) == Strlen(b, i)
    decreases |b| - i
  {
    if b[i] != 0 {
      StrlenMore(b, x, i + 1);
    }
  }

  lemma Sliced(b: Bytes, x: Bytes, n: nat)
    requires n <= |b|
    ensures (b + x)[..n] == b[..n] && (b + x)[n..] == b[n..] + x
  {
  }

  lemma StrMore(b: Bytes, x: Bytes)
    ensures More(TakeStr(b), TakeStr(b + x), x)
  {
    var n := Strlen(b, 0);
    if n < |b| {
      StrlenMore(b, x, 0);
      Sliced(b, x, n);
      Sliced(b, x, n + 1);
    }
  }

  lemma OptionalMore(pointer: u64, b: Bytes, x: Bytes)
    ensures More(TakeOptional(pointer, b), TakeOptional(pointer, b + x), x)
  {
    hide TakeStr;
    StrMore(b, x);
  }

  lemma GidsMore(pointer: u64, count: u64, b: Bytes, x: Bytes)
    ensures More(TakeGids(pointer, count, b), TakeGids(pointer, count, b + x), x)
  {
    hide FromLe32s;
    if 4 * count <= |b| {
      Sliced(b, x, 4 * count);
    }
  }

  lemma FilterMore(wanted: bool, count: u64, b: Bytes, x: Bytes)
    ensures More(TakeFilter(wanted, count, b), TakeFilter(wanted, count, b + x), x)
  {
    hide ToProgram;
    if 8 * count <= |b| {
      Sliced(b, x, 8 * count);
    }
  }

  lemma MountDataMore(src: CString, dest: CString, kind: CString, b: Bytes, x: Bytes)
    ensures More(TakeMountData(src, dest, kind, b), TakeMountData(src, dest, kind, b + x), x)
  {
    hide TakeOptional, FromLe32, FromLe64;
    if |b| >= 4 {
      Sliced(b, x, 4);
      OptionalMore(FromLe32(b[..4]), b[4..], x);
      var data := TakeOptional(FromLe32(b[..4]), b[4..]);
      if data.Got? && |data.rest| >= 8 {
        Sliced(data.rest, x, 8);
      }
    }
  }

  lemma MountMore(b: Bytes, x: Bytes)
    ensures More(TakeMount(b), TakeMount(b + x), x)
  {
    hide TakeStr, TakeMountData;
    StrMore(b, x);
    var src := TakeStr(b);
    if src.Got? {
      StrMore(src.rest, x);
      var dest := TakeStr(src.rest);
      if dest.Got? {
        StrMore(dest.rest, x);
        var kind := TakeStr(dest.rest);
        if kind.Got? {
          MountDataMore(src.value, dest.value, kind.value, kind.rest, x);
        }
      }
    }
  }

  lemma AndMountMore(j: Jail, b: Bytes, x: Bytes)
    requires |j.mounts| < TWO64 - 1
    ensures More(TakeAndMount(j, b), TakeAndMount(j, b + x), x)
  {
    hide TakeMount, MountWithData;
    MountMore(b, x);
  }

  lemma {:induction false} MountsMore(n: u64, j: Jail, b: Bytes, x: Bytes)
    requires |j.mounts| + n < TWO64
    ensures More(TakeMounts(n, j, b), TakeMounts(n, j, b + x), x)
    decreases n
  {
    hide TakeAndMount;
    if n > 0 {
      AndMountMore(j, b, x);
      var k := TakeAndMount(j, b);
      if k.Got? {
        MountsMore(n - 1, k.value, k.rest, x);
      }
    }
  }

  lemma ListsMore(i: Image, j: Jail, b: Bytes, x: Bytes)
    requires j.mounts == []
    ensures More(TakeLists(i, j, b), TakeLists(i, j, b + x), x)
  {
    hide TakeFilter, TakeMounts;
    FilterMore(j.Has(SECCOMP_FILTER), i.filterLen, b, x);
    var filter := TakeFilter(j.Has(SECCOMP_FILTER), i.filterLen, b);
    if filter.Got? {
      MountsMore(i.mountCount, j.(filter := filter.value), filter.rest, x);
    }
  }

  lemma NamesMore(i: Image, j: Jail, b: Bytes, x: Bytes)
    requires j.mounts == []
    ensures More(TakeNames(i, j, b), TakeNames(i, j, b + x), x)
  {
    hide TakeOptional, TakeLists;
    OptionalMore(i.chrootdir, b, x);
    var chrootdir := TakeOptional(i.chrootdir, b);
    if chrootdir.Got? {
      OptionalMore(i.hostname, chrootdir.rest, x);
      var hostname := TakeOptional(i.hostname, chrootdir.rest);
      if hostname.Got? {
        OptionalMore(i.altTable, hostname.rest, x);
        var altTable := TakeOptional(i.altTable, hostname.rest);
        if altTable.Got? {
          ListsMore(i, j.(chrootdir := chrootdir.value, hostname := hostname.value, altTable := altTable.value),
                    altTable.rest, x);
        }
      }
    }
  }

  lemma IdsMore(i: Image, j: Jail, b: Bytes, x: Bytes)
    requires j.mounts == []
    ensures More(TakeIds(i, j, b), TakeIds(i, j, b + x), x)
  {
    hide TakeOptional, TakeGids, TakeNames;
    OptionalMore(i.user, b, x);
    var user := TakeOptional(i.user, b);
    if user.Got? {
      GidsMore(i.gids, i.gidCount, user.rest, x);
      var gids := TakeGids(i.gids, i.gidCount, user.rest);
      if gids.Got? {
        NamesMore(i, j.(user := user.value, gids := gids.value), gids.rest, x);
      }
    }
  }

  lemma BeforeMore(b: Bytes, x: Bytes)
    ensures More(BeforeCgroups(b), BeforeCgroups(b + x), x)
  {
    hide TakeIds, ToImage, FromLe64s, Hollow;
    if |b| >= IMAGE_SIZE {
      Sliced(b, x, IMAGE_SIZE);
      HollowHasNoMounts(Announced(b));
      IdsMore(Announced(b), Hollow(Announced(b)), b[IMAGE_SIZE..], x);
    }
  }

  lemma HollowHasNoMounts(i: Image)
    ensures Hollow(i).mounts == []
  {
  }

  lemma {:induction false} CgroupsMore(n: u64, done: seq<CString>, b: Bytes, x: Bytes)
    ensures TakeCgroups(n, done, b) == Behind ==> TakeCgroups(n, done, b + x) == Behind
    ensures var c := TakeCgroups(n, done, b);
      c.Stored? ==> TakeCgroups(n, done, b + x) == Stored(c.names, c.rest + x)
    decreases n
  {
    hide TakeStr;
    if n > 0 {
      StrMore(b, x);
      var s := TakeStr(b);
      if s.Got? && |done| < MAX_CGROUPS {
        CgroupsMore(n - 1, done + [s.value], s.rest, x);
      }
    }
  }

  /** What can be read at all is read from more bytes just the same. */
  lemma UnmarshalMore(b: Bytes, x: Bytes)
    ensures Unmarshal(b).Outside? ==> Unmarshal(b + x).Outside?
    ensures Unmarshal(b).Arrived? ==> Unmarshal(b + x) == Arrived(Unmarshal(b).jail, Unmarshal(b).rest + x)
  {
    hide BeforeCgroups, TakeCgroups;
    BeforeMore(b, x);
    if BeforeCgroups(b).Got? {
      AnnouncedMore(b, x);
      CgroupsMore(Announced(b).cgroupCount, [], BeforeCgroups(b).rest, x);
    }
  }

  lemma AnnouncedMore(b: Bytes, x: Bytes)
    requires BeforeCgroups(b).Got?
    ensures |b| >= IMAGE_SIZE && Announced(b + x) == Announced(b)
  {
    Sliced(b, x, IMAGE_SIZE);
  }

  /** No jail is read from a marshalled jail that was cut off. */
  lemma TruncatedIsBroken(j: Jail, m: Memory, n: nat)
    requires Consistent(j) && MemoryOk(m) && n < |Serialized(j, m)|
    ensures Unmarshal(Serialized(j, m)[..n]) == Broken
  {
    hide Unmarshal, Serialized;
    var s := Serialized(j, m);
    RoundTrip(j, m);
    UnmarshalMore(s[..n], s[n..]);
    assert s[..n] + s[n..] == s;
  }
}
