/**
 Sending a jail to the process after execve (minijail_marshal, minijail_unmarshal):
 the image of the structure, stale pointers included, and then everything the
 pointers point at.
 */
module Marshal {
  import opened Words
  import opened Bpf
  import opened Jails

  type Bytes = seq<u8>

  const NGROUPS_MAX: nat := 65536

  // ----- Numbers in memory: little-endian -----

  function Le16(x: u16): Bytes { [x % 256, x / 256] }

  function FromLe16(b: Bytes): u16
    requires |b| == 2
  {
    var hi: int := b[1];
    b[0] + 256 * hi
  }

  function Le32(x: u32): (b: Bytes)
    ensures |b| == 4
  {
    Le16(x % 0x1_0000) + Le16(x / 0x1_0000)
  }

  function FromLe32(b: Bytes): u32
    requires |b| == 4
  {
    var hi: int := FromLe16(b[2..]);
    FromLe16(b[..2]) + 0x1_0000 * hi
  }

  lemma Le32RoundTrip(x: u32)
    ensures FromLe32(Le32(x)) == x
  {
    assert Le32(x)[..2] == Le16(x % 0x1_0000) && Le32(x)[2..] == Le16(x / 0x1_0000);
  }

  function Le64(x: u64): (b: Bytes)
    ensures |b| == 8
  {
    Le32(Lo(x)) + Le32(Hi(x))
  }

  function FromLe64(b: Bytes): u64
    requires |b| == 8
  {
    var hi: int := FromLe32(b[4..]);
    FromLe32(b[..4]) + TWO32 * hi
  }

  lemma Le64RoundTrip(x: u64)
    ensures FromLe64(Le64(x)) == x
  {
    Le32RoundTrip(Lo(x));
    Le32RoundTrip(Hi(x));
    assert Le64(x)[..4] == Le32(Lo(x)) && Le64(x)[4..] == Le32(Hi(x));
  }

  function Le64s(ws: seq<u64>): (b: Bytes)
    ensures |b| == 8 * |ws|
  {
    if ws == [] then [] else Le64(ws[0]) + Le64s(ws[1..])
  }

  function FromLe64s(b: Bytes, n: nat): (ws: seq<u64>)
    requires |b| == 8 * n
    ensures |ws| == n
    decreases n
  {
    if n == 0 then [] else [FromLe64(b[..8])] + FromLe64s(b[8..], n - 1)
  }

  lemma {:induction false} Le64sRoundTrip(ws: seq<u64>)
    ensures FromLe64s(Le64s(ws), |ws|) == ws
  {
    if ws != [] {
      Le64RoundTrip(ws[0]);
      Le64sRoundTrip(ws[1..]);
      assert Le64s(ws)[..8] == Le64(ws[0]) && Le64s(ws)[8..] == Le64s(ws[1..]);
    }
  }

  function Le32s(xs: seq<u32>): (b: Bytes)
    ensures |b| == 4 * |xs|
  {
    if xs == [] then [] else Le32(xs[0]) + Le32s(xs[1..])
  }

  function FromLe32s(b: Bytes, n: nat): (xs: seq<u32>)
    requires |b| == 4 * n
    ensures |xs| == n
    decreases n
  {
    if n == 0 then [] else [FromLe32(b[..4])] + FromLe32s(b[4..], n - 1)
  }

  lemma {:induction false} Le32sRoundTrip(xs: seq<u32>)
    ensures FromLe32s(Le32s(xs), |xs|) == xs
  {
    if xs != [] {
      Le32RoundTrip(xs[0]);
      Le32sRoundTrip(xs[1..]);
      assert Le32s(xs)[..4] == Le32(xs[0]) && Le32s(xs)[4..] == Le32s(xs[1..]);
    }
  }

  /** A struct sock_filter: 16-bit code, the two jump offsets, then k. */
  function InstrBytes(i: Instr): (b: Bytes)
    ensures |b| == 8
  {
    Le16(i.code) + [i.jt, i.jf] + Le32(i.k)
  }

  function ToInstr(b: Bytes): Instr
    requires |b| == 8
  {
    Instr(FromLe16(b[..2]), FromLe32(b[4..]), b[2], b[3])
  }

  lemma InstrRoundTrip(i: Instr)
    ensures ToInstr(InstrBytes(i)) == i
  {
    Le32RoundTrip(i.k);
    assert InstrBytes(i)[..2] == Le16(i.code) && InstrBytes(i)[4..] == Le32(i.k);
  }

  function ProgramBytes(p: seq<Instr>): (b: Bytes)
    ensures |b| == 8 * |p|
  {
    if p == [] then [] else InstrBytes(p[0]) + ProgramBytes(p[1..])
  }

  function ToProgram(b: Bytes, n: nat): (p: seq<Instr>)
    requires |b| == 8 * n
    ensures |p| == n
    decreases n
  {
    if n == 0 then [] else [ToInstr(b[..8])] + ToProgram(b[8..], n - 1)
  }

  lemma {:induction false} ProgramRoundTrip(p: seq<Instr>)
    ensures ToProgram(ProgramBytes(p), |p|) == p
  {
    if p != [] {
      InstrRoundTrip(p[0]);
      ProgramRoundTrip(p[1..]);
      assert ProgramBytes(p)[..8] == InstrBytes(p[0]) && ProgramBytes(p)[8..] == ProgramBytes(p[1..]);
    }
  }

  // ----- Flags as one word -----

  function Pack(f: seq<bool>): (x: nat)
    ensures x < Pow2(|f|)
  {
    if f == [] then 0 else (if f[0] then 1 else 0) + 2 * Pack(f[1..])
  }

  function Unpack(x: nat, n: nat): (f: seq<bool>)
    ensures |f| == n
    decreases n
  {
    if n == 0 then [] else [x % 2 == 1] + Unpack(x / 2, n - 1)
  }

  lemma {:induction false} PackRoundTrip(f: seq<bool>)
    ensures Unpack(Pack(f), |f|) == f
  {
    if f != [] {
      PackRoundTrip(f[1..]);
    }
  }

  function FlagWord(f: Flags): u64 {
    Pow2At40();
    Pack(f)
  }

  lemma Pow2At40()
    ensures Pow2(FLAG_COUNT) == 0x100 * TWO32
  {
    Pow2At32();
    assert Pow2(36) == 16 * TWO32;
  }

  // ----- The image of the structure -----

  /** Where things are in memory. Pointers to the members that are sent are not null. */
  datatype Memory = Memory(user: u64, gids: u64, chrootdir: u64, hostname: u64, altTable: u64, others: seq<u64>)

  /** The pointers that are not used as signals, and the cgroup names. */
  const OTHER_ADDRESSES: nat := 21

  predicate MemoryOk(m: Memory) {
    && m.user != 0 && m.gids != 0 && m.chrootdir != 0 && m.hostname != 0 && m.altTable != 0
    && |m.others| == OTHER_ADDRESSES
  }

  function Pointer<T>(o: Option<T>, at: u64): u64 { if o.Some? then at else 0 }

  /** The members of the structure as they lie in memory. */
  datatype Image = Image(
    flags: Flags,
    user: u64, gidCount: u64, gids: u64, chrootdir: u64, hostname: u64, altTable: u64,
    filterLen: u64, mountCount: u64, cgroupCount: u64,
    plain: Plain,
    others: seq<u64>
  )

  const SIGNALS: nat := 10
  const IMAGE_WORDS: nat := SIGNALS + PLAIN_COUNT + OTHER_ADDRESSES
  /** sizeof(struct minijail), 2128 bytes on a 64-bit machine. */
  const IMAGE_SIZE: nat := 8 * IMAGE_WORDS

  function ImageWords(i: Image): (ws: seq<u64>)
    requires |i.others| == OTHER_ADDRESSES
    ensures |ws| == IMAGE_WORDS
  {
    [FlagWord(i.flags), i.user, i.gidCount, i.gids, i.chrootdir, i.hostname, i.altTable,
     i.filterLen, i.mountCount, i.cgroupCount] + i.plain + i.others
  }

  function ToImage(ws: seq<u64>): Image
    requires |ws| == IMAGE_WORDS
  {
    Image(Unpack(ws[0], FLAG_COUNT), ws[1], ws[2], ws[3], ws[4], ws[5], ws[6], ws[7], ws[8], ws[9],
          ws[SIGNALS..SIGNALS + PLAIN_COUNT], ws[SIGNALS + PLAIN_COUNT..])
  }

  lemma ImageRoundTrip(i: Image)
    requires |i.others| == OTHER_ADDRESSES
    ensures ToImage(ImageWords(i)) == i
  {
    PackRoundTrip(i.flags);
    var ws := ImageWords(i);
    assert ws[SIGNALS..SIGNALS + PLAIN_COUNT] == i.plain && ws[SIGNALS + PLAIN_COUNT..] == i.others;
  }

  function ImageOf(j: Jail, m: Memory): Image
    requires |j.cgroups| <= MAX_CGROUPS
  {
    Image(j.flags, Pointer(j.user, m.user), j.gidCount, Pointer(j.gids, m.gids), Pointer(j.chrootdir, m.chrootdir),
          Pointer(j.hostname, m.hostname), Pointer(j.altTable, m.altTable), j.filterLen, j.mountCount, |j.cgroups|,
          j.plain, m.others)
  }

  // ----- What follows the image -----

  function Str(s: CString): Bytes { s + [0] }

  function OptionalStr(o: Option<CString>): Bytes { if o.None? then [] else Str(o.value) }

  function GidBytes(o: Option<seq<u32>>): Bytes { if o.None? then [] else Le32s(o.value) }

  function FilterBytes(j: Jail): Bytes {
    if j.Has(SECCOMP_FILTER) && j.filter.Some? then ProgramBytes(j.filter.value) else []
  }

  function MountBytes(m: Mount): Bytes {
    Str(m.src) + Str(m.dest) + Str(m.kind) + Le32(if m.data.Some? then 1 else 0) + OptionalStr(m.data) + Le64(m.flags)
  }

  function MountsBytes(ms: seq<Mount>): Bytes {
    if ms == [] then [] else MountBytes(ms[0]) + MountsBytes(ms[1..])
  }

  function StrsBytes(ss: seq<CString>): Bytes {
    if ss == [] then [] else Str(ss[0]) + StrsBytes(ss[1..])
  }

  /** The bytes of a jail that lies in memory as m says. */
  function Serialized(j: Jail, m: Memory): Bytes
    requires |j.cgroups| <= MAX_CGROUPS && MemoryOk(m)
  {
    Le64s(ImageWords(ImageOf(j, m))) + Ids(j) + Names(j) + FilterBytes(j) + MountsBytes(j.mounts) + StrsBytes(j.cgroups)
  }

  function Ids(j: Jail): Bytes { OptionalStr(j.user) + GidBytes(j.gids) }

  function Names(j: Jail): Bytes { OptionalStr(j.chrootdir) + OptionalStr(j.hostname) + OptionalStr(j.altTable) }

  // ----- Reading -----

  /** What was read from the front, and the rest. */
  datatype Read<+T> = Fail | Got(value: T, rest: Bytes)

  /** consumebytes */
  function Take(n: nat, b: Bytes): Read<Bytes> {
    if n > |b| then Fail else Got(b[..n], b[n..])
  }

  /** strnlen, from position i on. */
  function Strlen(b: Bytes, i: nat): (n: nat)
    requires i <= |b|
    ensures i <= n <= |b| && 0 !in b[i..n] && (n < |b| ==> b[n] == 0)
    decreases |b| - i
  {
    if i == |b| || b[i] == 0 then i else Strlen(b, i + 1)
  }

  /** consumestr */
  function TakeStr(b: Bytes): Read<CString> {
    var n := Strlen(b, 0);
    if n == |b| then Fail else Got(b[..n], b[n + 1..])
  }

  function TakeOptional(pointer: u64, b: Bytes): Read<Option<CString>> {
    if pointer == 0 then Got(None, b)
    else if TakeStr(b).Fail? then Fail
    else Got(Some(TakeStr(b).value), TakeStr(b).rest)
  }

  function TakeGids(pointer: u64, count: u64, b: Bytes): Read<Option<seq<u32>>> {
    if pointer == 0 then Got(None, b)
    else if count > NGROUPS_MAX || 4 * count > |b| then Fail
    else Got(Some(FromLe32s(b[..4 * count], count)), b[4 * count..])
  }

  function TakeFilter(wanted: bool, count: u64, b: Bytes): Read<Option<seq<Instr>>> {
    if !wanted || count == 0 then Got(None, b)
    else if count > USHRT_MAX || 8 * count > |b| then Fail
    else Got(Some(ToProgram(b[..8 * count], count)), b[8 * count..])
  }

  /** The fields of one mount point, as they are handed to minijail_mount_with_data. */
  function TakeMount(b: Bytes): Read<Mount> {
    var src := TakeStr(b);
    if src.Fail? then Fail
    else
      var dest := TakeStr(src.rest);
      if dest.Fail? then Fail
      else
        var kind := TakeStr(dest.rest);
        if kind.Fail? then Fail else TakeMountData(src.value, dest.value, kind.value, kind.rest)
  }

  function TakeMountData(src: CString, dest: CString, kind: CString, b: Bytes): Read<Mount> {
    if |b| < 4 then Fail
    else
      var data := TakeOptional(FromLe32(b[..4]), b[4..]);
      if data.Fail? || |data.rest| < 8 then Fail
      else Got(Mount(src, dest, kind, data.value, FromLe64(data.rest[..8])), data.rest[8..])
  }

  function TakeMounts(n: u64, j: Jail, b: Bytes): Read<Jail>
    requires |j.mounts| + n < TWO64
    decreases n
  {
    if n == 0 then Got(j, b)
    else
      var k := TakeAndMount(j, b);
      if k.Fail? then Fail else TakeMounts(n - 1, k.value, k.rest)
  }

  function TakeAndMount(j: Jail, b: Bytes): (r: Read<Jail>)
    requires |j.mounts| < TWO64 - 1
    ensures r.Got? ==> |r.value.mounts| == |j.mounts| + 1
  {
    var m := TakeMount(b);
    if m.Fail? || MountWithData(j, m.value).None? then Fail
    else Got(MountWithData(j, m.value).value, m.rest)
  }

  /** The structure just after it was copied: what pointers pointed at is not there yet. */
  function Hollow(i: Image): Jail {
    Jail(i.flags, i.plain, None, i.gidCount, None, None, None, None, i.filterLen, None, 0, [], [],
         None, None, None, None, [], [])
  }

  /** How unmarshalling ends: with an error, with a write behind the array of cgroups, or
      with a jail and the bytes that are left. */
  datatype Arrival = Broken | Outside | Arrived(jail: Jail, rest: Bytes)

  function Announced(b: Bytes): Image
    requires |b| >= IMAGE_SIZE
  {
    ToImage(FromLe64s(b[..IMAGE_SIZE], IMAGE_WORDS))
  }

  /** Everything in front of the cgroups. */
  function BeforeCgroups(b: Bytes): Read<Jail> {
    if |b| < IMAGE_SIZE then Fail else TakeIds(Announced(b), Hollow(Announced(b)), b[IMAGE_SIZE..])
  }

  /** n more names are read behind those that are stored. Their number is not compared with
      the size of the array. */
  function TakeCgroups(n: u64, done: seq<CString>, b: Bytes): Cgroups
    decreases n
  {
    if n == 0 then Stored(done, b)
    else
      var s := TakeStr(b);
      if s.Fail? then Missing
      else if |done| >= MAX_CGROUPS then Behind
      else TakeCgroups(n - 1, done + [s.value], s.rest)
  }

  /** The names, or one that is missing, or one that is stored behind the array. */
  datatype Cgroups = Missing | Behind | Stored(names: seq<CString>, rest: Bytes)

  function Finished(j: Jail, c: Cgroups): Arrival {
    match c
    case Missing => Broken
    case Behind => Outside
    case Stored(names, rest) => Arrived(j.(cgroups := names), rest)
  }

  /** minijail_unmarshal. */
  function Unmarshal(b: Bytes): Arrival {
    var before := BeforeCgroups(b);
    if before.Fail? then Broken else Finished(before.value, TakeCgroups(Announced(b).cgroupCount, [], before.rest))
  }

  function TakeIds(i: Image, j: Jail, b: Bytes): Read<Jail>
    requires j.mounts == []
  {
    var user := TakeOptional(i.user, b);
    if user.Fail? then Fail
    else
      var gids := TakeGids(i.gids, i.gidCount, user.rest);
      if gids.Fail? then Fail
      else TakeNames(i, j.(user := user.value, gids := gids.value), gids.rest)
  }

  function TakeNames(i: Image, j: Jail, b: Bytes): Read<Jail>
    requires j.mounts == []
  {
    var chrootdir := TakeOptional(i.chrootdir, b);
    if chrootdir.Fail? then Fail
    else
      var hostname := TakeOptional(i.hostname, chrootdir.rest);
      if hostname.Fail? then Fail
      else
        var altTable := TakeOptional(i.altTable, hostname.rest);
        if altTable.Fail? then Fail
        else
          TakeLists(i, j.(chrootdir := chrootdir.value, hostname := hostname.value, altTable := altTable.value),
                    altTable.rest)
  }

  function TakeLists(i: Image, j: Jail, b: Bytes): Read<Jail>
    requires j.mounts == []
  {
    var filter := TakeFilter(j.Has(SECCOMP_FILTER), i.filterLen, b);
    if filter.Fail? then Fail
    else TakeMounts(i.mountCount, j.(filter := filter.value), filter.rest)
  }

  // ----- The round trip, part by part -----

  lemma {:induction false} StrlenOfStr(s: CString, b: Bytes, i: nat)
    requires i <= |s| < |b| && s <= b && b[|s|] == 0
    ensures Strlen(b, i) == |s|
    decreases |s| - i
  {
    if i < |s| {
      assert b[i] == s[i] && s[i] in s;
      StrlenOfStr(s, b, i + 1);
    }
  }

  lemma StrRead(s: CString, rest: Bytes)
    ensures TakeStr(Str(s) + rest) == Got(s, rest)
  {
    var b := Str(s) + rest;
    StrlenOfStr(s, b, 0);
    assert b[..|s|] == s && b[|s| + 1..] == rest;
  }

  lemma OptionalRead(o: Option<CString>, at: u64, rest: Bytes)
    requires at != 0
    ensures TakeOptional(Pointer(o, at), OptionalStr(o) + rest) == Got(o, rest)
  {
    if o.Some? {
      StrRead(o.value, rest);
    } else {
      assert [] + rest == rest;
    }
  }

  lemma GidsRead(o: Option<seq<u32>>, at: u64, count: u64, rest: Bytes)
    requires at != 0 && (o.Some? ==> count == |o.value|)
    ensures TakeGids(Pointer(o, at), count, GidBytes(o) + rest)
         == if o.Some? && count > NGROUPS_MAX then Fail else Got(o, rest)
  {
    var b := GidBytes(o) + rest;
    if o.Some? {
      Le32sRoundTrip(o.value);
      assert b[..4 * count] == Le32s(o.value) && b[4 * count..] == rest;
    } else {
      assert b == rest;
    }
  }

  /** A program that is empty, or not used, does not arrive. */
  function Sent(j: Jail): Option<seq<Instr>> {
    if j.Has(SECCOMP_FILTER) && j.filter.Some? && j.filter.value != [] then j.filter else None
  }

  lemma FilterRead(j: Jail, rest: Bytes)
    requires Consistent(j)
    ensures TakeFilter(j.Has(SECCOMP_FILTER), j.filterLen, FilterBytes(j) + rest) == Got(Sent(j), rest)
  {
    var b := FilterBytes(j) + rest;
    if Sent(j).Some? {
      ProgramRoundTrip(j.filter.value);
      assert b[..8 * j.filterLen] == ProgramBytes(j.filter.value) && b[8 * j.filterLen..] == rest;
    } else {
      assert b == rest;
    }
  }

  lemma MountDataRead(m: Mount, rest: Bytes)
    ensures TakeMountData(m.src, m.dest, m.kind,
                          Le32(if m.data.Some? then 1 else 0) + (OptionalStr(m.data) + (Le64(m.flags) + rest)))
         == Got(m, rest)
  {
    var signal: u32 := if m.data.Some? then 1 else 0;
    var b := OptionalStr(m.data) + (Le64(m.flags) + rest);
    Le32RoundTrip(signal);
    assert (Le32(signal) + b)[..4] == Le32(signal) && (Le32(signal) + b)[4..] == b;
    OptionalRead(m.data, 1, Le64(m.flags) + rest);
    Le64RoundTrip(m.flags);
    assert (Le64(m.flags) + rest)[..8] == Le64(m.flags) && (Le64(m.flags) + rest)[8..] == rest;
  }

  lemma MountRead(m: Mount, rest: Bytes)
    ensures TakeMount(MountBytes(m) + rest) == Got(m, rest)
  {
    var data := Le32(if m.data.Some? then 1 else 0) + (OptionalStr(m.data) + (Le64(m.flags) + rest));
    var kind := Str(m.kind) + data;
    var dest := Str(m.dest) + kind;
    AssocAll(Str(m.src), Str(m.dest), Str(m.kind), Le32(if m.data.Some? then 1 else 0),
             OptionalStr(m.data), Le64(m.flags), rest);
    StrRead(m.src, dest);
    StrRead(m.dest, kind);
    StrRead(m.kind, data);
    MountDataRead(m, rest);
  }

  function WithMounts(j: Jail, ms: seq<Mount>): Jail
    requires |j.mounts| + |ms| < TWO64
  {
    j.(mounts := j.mounts + ms, mountCount := |j.mounts| + |ms|)
  }

  lemma MountStored(j: Jail, m: Mount)
    requires MountOk(m) && |j.mounts| + 1 < TWO64 && (j.Has(VFS) || j.Has(ENTER_VFS))
    ensures MountWithData(j, m) == Some(WithMounts(j, [m]))
  {
    StoredIsStable(m);
    assert j.flags[VFS := true] == j.flags || j.Has(ENTER_VFS);
  }

  lemma WithMountsTwice(j: Jail, ms: seq<Mount>)
    requires ms != [] && |j.mounts| + |ms| < TWO64
    ensures WithMounts(WithMounts(j, [ms[0]]), ms[1..]) == WithMounts(j, ms)
  {
    assert j.mounts + [ms[0]] + ms[1..] == j.mounts + ms;
  }

  lemma Assoc(a: Bytes, b: Bytes, c: Bytes)
    ensures (a + b) + c == a + (b + c)
  {
  }

  lemma FirstMountRead(ms: seq<Mount>, j: Jail, rest: Bytes)
    requires ms != [] && MountOk(ms[0]) && |j.mounts| < TWO64 - 1 && (j.Has(VFS) || j.Has(ENTER_VFS))
    ensures TakeAndMount(j, MountsBytes(ms) + rest) == Got(WithMounts(j, [ms[0]]), MountsBytes(ms[1..]) + rest)
  {
    Assoc(MountBytes(ms[0]), MountsBytes(ms[1..]), rest);
    OneMountRead(ms[0], j, MountsBytes(ms[1..]) + rest);
  }

  lemma OneMountRead(m: Mount, j: Jail, rest: Bytes)
    requires MountOk(m) && |j.mounts| < TWO64 - 1 && (j.Has(VFS) || j.Has(ENTER_VFS))
    ensures TakeAndMount(j, MountBytes(m) + rest) == Got(WithMounts(j, [m]), rest)
  {
    MountStored(j, m);
    MountRead(m, rest);
  }

  lemma NoMounts(j: Jail, rest: Bytes)
    requires |j.mounts| < TWO64 && j.mountCount == |j.mounts|
    ensures TakeMounts(0, j, MountsBytes([]) + rest) == Got(WithMounts(j, []), rest)
  {
    assert MountsBytes([]) + rest == rest;
    assert j.mounts + [] == j.mounts;
  }

  /** Stored mount points are read back as they were, and turn no flag on. */
  lemma {:induction false} MountsRead(ms: seq<Mount>, j: Jail, rest: Bytes)
    requires MountsOk(ms) && |j.mounts| + |ms| < TWO64 && j.mountCount == |j.mounts|
    requires ms != [] ==> j.Has(VFS) || j.Has(ENTER_VFS)
    ensures TakeMounts(|ms|, j, MountsBytes(ms) + rest) == Got(WithMounts(j, ms), rest)
    decreases ms
  {
    if ms == [] {
      NoMounts(j, rest);
    } else {
      assert MountOk(ms[0]);
      FirstMountRead(ms, j, rest);
      WithMountsTwice(j, ms);
      MountsRead(ms[1..], WithMounts(j, [ms[0]]), rest);
    }
  }

  // ----- The whole round trip -----

  /** The jail that arrives: what the reset pointers led to is gone. */
  function Received(j: Jail): Jail {
    j.(filter := Sent(j), preloadPath := None, pidFile := None, uidmap := None, gidmap := None,
       remounts := [], hooks := [])
  }

  lemma ImageRead(i: Image, rest: Bytes)
    requires |i.others| == OTHER_ADDRESSES
    ensures var b := Le64s(ImageWords(i)) + rest;
      |b| >= IMAGE_SIZE && ToImage(FromLe64s(b[..IMAGE_SIZE], IMAGE_WORDS)) == i && b[IMAGE_SIZE..] == rest
  {
    ImageRoundTrip(i);
    var ws := ImageWords(i);
    Le64sRoundTrip(ws);
    assert (Le64s(ws) + rest)[..IMAGE_SIZE] == Le64s(ws) && (Le64s(ws) + rest)[IMAGE_SIZE..] == rest;
  }

  lemma IdsRead(j: Jail, m: Memory, k: Jail, rest: Bytes)
    requires Consistent(j) && MemoryOk(m) && k.mounts == []
    ensures TakeIds(ImageOf(j, m), k, Ids(j) + rest)
         == if TooManyGids(j) then Fail
            else TakeNames(ImageOf(j, m), k.(user := j.user, gids := j.gids), rest)
  {
    Assoc(OptionalStr(j.user), GidBytes(j.gids), rest);
    OptionalRead(j.user, m.user, GidBytes(j.gids) + rest);
    GidsRead(j.gids, m.gids, j.gidCount, rest);
  }

  lemma NamesRead(j: Jail, m: Memory, k: Jail, rest: Bytes)
    requires Consistent(j) && MemoryOk(m) && k.mounts == []
    ensures TakeNames(ImageOf(j, m), k, Names(j) + rest)
         == TakeLists(ImageOf(j, m), k.(chrootdir := j.chrootdir, hostname := j.hostname, altTable := j.altTable), rest)
  {
    var alt := OptionalStr(j.altTable) + rest;
    var host := OptionalStr(j.hostname) + alt;
    Assoc(OptionalStr(j.chrootdir) + OptionalStr(j.hostname), OptionalStr(j.altTable), rest);
    Assoc(OptionalStr(j.chrootdir), OptionalStr(j.hostname), alt);
    OptionalRead(j.chrootdir, m.chrootdir, host);
    OptionalRead(j.hostname, m.hostname, alt);
    OptionalRead(j.altTable, m.altTable, rest);
  }

  /** The jail that arrives, without its cgroups. */
  function Mounted(k: Jail, j: Jail): Jail
    requires |k.mounts| + |j.mounts| < TWO64
  {
    WithMounts(k.(filter := Sent(j)), j.mounts)
  }

  lemma MountedIsReceived(k: Jail, j: Jail)
    requires Consistent(j) && k == Received(j).(filter := None, mounts := [], mountCount := 0, cgroups := [])
    ensures Mounted(k, j).(cgroups := j.cgroups) == Received(j)
  {
    assert [] + j.mounts == j.mounts;
  }

  lemma ListsRead(j: Jail, m: Memory, k: Jail)
    requires Consistent(j) && k.mounts == [] && k.mountCount == 0 && k.flags == j.flags
    ensures TakeLists(ImageOf(j, m), k, Lists(j)) == Got(Mounted(k, j), StrsBytes(j.cgroups))
  {
    FilterRead(j, MountsBytes(j.mounts) + StrsBytes(j.cgroups));
    MountsRead(j.mounts, k.(filter := Sent(j)), StrsBytes(j.cgroups));
  }

  lemma {:induction false} CgroupsRead(ss: seq<CString>, done: seq<CString>)
    requires |done| + |ss| <= MAX_CGROUPS
    ensures TakeCgroups(|ss|, done, StrsBytes(ss)) == Stored(done + ss, [])
    decreases ss
  {
    if ss == [] {
      NoCgroups(done);
    } else {
      FirstStr(ss);
      CgroupStep(|ss|, done, StrsBytes(ss), ss[0], StrsBytes(ss[1..]));
      CgroupsRead(ss[1..], done + [ss[0]]);
      OneByOne(done, ss);
    }
  }

  lemma NoCgroups(done: seq<CString>)
    ensures TakeCgroups(0, done, StrsBytes([])) == Stored(done + [], [])
  {
    assert done + [] == done;
  }

  lemma OneByOne(done: seq<CString>, ss: seq<CString>)
    requires ss != []
    ensures done + [ss[0]] + ss[1..] == done + ss
  {
  }

  lemma FirstStr(ss: seq<CString>)
    requires ss != []
    ensures TakeStr(StrsBytes(ss)) == Got(ss[0], StrsBytes(ss[1..]))
  {
    StrRead(ss[0], StrsBytes(ss[1..]));
  }

  lemma CgroupStep(n: u64, done: seq<CString>, b: Bytes, s: CString, rest: Bytes)
    requires n > 0 && |done| < MAX_CGROUPS && TakeStr(b) == Got(s, rest)
    ensures TakeCgroups(n, done, b) == TakeCgroups(n - 1, done + [s], rest)
  {
  }

  lemma CgroupsArrive(j: Jail, before: Jail)
    requires |j.cgroups| <= MAX_CGROUPS && before.(cgroups := j.cgroups) == Received(j)
    ensures Finished(before, TakeCgroups(|j.cgroups|, [], StrsBytes(j.cgroups))) == Arrived(Received(j), [])
  {
    hide TakeCgroups;
    CgroupsRead(j.cgroups, []);
    assert [] + j.cgroups == j.cgroups;
  }

  predicate TooManyGids(j: Jail) { j.gids.Some? && |j.gids.value| > NGROUPS_MAX }

  /** Member by member, k is what arrives of j. A filter program arrives if it is in use and
      not empty; the other members with pointers that are not sent are empty. */
  predicate Carried(j: Jail, k: Jail) {
    && k.flags == j.flags && k.plain == j.plain
    && k.user == j.user && k.gidCount == j.gidCount && k.gids == j.gids
    && k.chrootdir == j.chrootdir && k.hostname == j.hostname && k.altTable == j.altTable
    && k.mountCount == j.mountCount && k.mounts == j.mounts && k.cgroups == j.cgroups
    && k.filterLen == j.filterLen
    && (k.filter == j.filter <==> j.filter == None || (j.flags[SECCOMP_FILTER] && j.filter != Some([])))
    && (k.filter != j.filter ==> k.filter == None)
    && k.preloadPath == None && k.pidFile == None && k.uidmap == None && k.gidmap == None
    && k.remounts == [] && k.hooks == []
  }

  lemma ReceivedIsCarried(j: Jail)
    requires Consistent(j)
    ensures Carried(j, Received(j))
  {
  }

  /**
   A jail that can be built arrives, and every byte is used, exactly when it does not
   list too many groups; where it lies in memory makes no difference.
   */
  lemma RoundTrip(j: Jail, m: Memory)
    requires Consistent(j) && MemoryOk(m)
    ensures var u := Unmarshal(Serialized(j, m));
      if j.gids.Some? && |j.gids.value| > 65536 then u == Broken
      else u.Arrived? && u.rest == [] && Carried(j, u.jail) && u.jail == Received(j)
  {
    var k := BeginningRead(j, m);
    CgroupsArrive(j, k);
    ReceivedIsCarried(j);
  }

  lemma BeginningRead(j: Jail, m: Memory) returns (before: Jail)
    requires Consistent(j) && MemoryOk(m)
    ensures |Serialized(j, m)| >= IMAGE_SIZE && Announced(Serialized(j, m)).cgroupCount == |j.cgroups|
    ensures BeforeCgroups(Serialized(j, m)) == if TooManyGids(j) then Fail else Got(before, StrsBytes(j.cgroups))
    ensures before.(cgroups := j.cgroups) == Received(j)
  {
    SerializedParts(j, m);
    ImageRead(ImageOf(j, m), Ids(j) + (Names(j) + Lists(j)));
    before := ContentsRead(j, m);
  }

  function Lists(j: Jail): Bytes { FilterBytes(j) + (MountsBytes(j.mounts) + StrsBytes(j.cgroups)) }

  lemma ContentsRead(j: Jail, m: Memory) returns (before: Jail)
    requires Consistent(j) && MemoryOk(m)
    ensures TakeIds(ImageOf(j, m), Hollow(ImageOf(j, m)), Ids(j) + (Names(j) + Lists(j)))
         == if TooManyGids(j) then Fail else Got(before, StrsBytes(j.cgroups))
    ensures before.(cgroups := j.cgroups) == Received(j)
  {
    var h := Hollow(ImageOf(j, m));
    IdsRead(j, m, h, Names(j) + Lists(j));
    var k := h.(user := j.user, gids := j.gids);
    NamesRead(j, m, k, Lists(j));
    var l := k.(chrootdir := j.chrootdir, hostname := j.hostname, altTable := j.altTable);
    ListsRead(j, m, l);
    MountedIsReceived(l, j);
    before := Mounted(l, j);
  }

  lemma SerializedParts(j: Jail, m: Memory)
    requires |j.cgroups| <= MAX_CGROUPS && MemoryOk(m)
    ensures Serialized(j, m)
         == Le64s(ImageWords(ImageOf(j, m)))
            + (Ids(j) + (Names(j) + Lists(j)))
  {
    AssocAll(Le64s(ImageWords(ImageOf(j, m))), Ids(j), Names(j), FilterBytes(j),
             MountsBytes(j.mounts), StrsBytes(j.cgroups), []);
  }

  lemma AssocAll(a: Bytes, b: Bytes, c: Bytes, d: Bytes, e: Bytes, f: Bytes, g: Bytes)
    ensures (a + b + c + d + e + f) + g == a + (b + (c + (d + (e + (f + g)))))
    ensures a + b + c + d + e + f == a + (b + (c + (d + (e + f))))
  {
  }

  /** In particular, every jail that can be built arrives. */
  lemma BuiltJailArrives(calls: seq<Call>, m: Memory)
    requires AfterAll(NEW_JAIL, calls).Some? && MemoryOk(m)
    ensures var j := AfterAll(NEW_JAIL, calls).value;
      && |j.cgroups| <= MAX_CGROUPS
      && var u := Unmarshal(Serialized(j, m));
      && (u.Arrived? <==> j.gids == None || |j.gids.value| <= 65536)
      && (u.Arrived? ==> u.rest == [] && Carried(j, u.jail))
  {
    BuiltIsConsistent(calls);
    RoundTrip(AfterAll(NEW_JAIL, calls).value, m);
  }

  // ----- Through a pipe -----

  /** minijail_to_fd: the size, then the jail. */
  function Message(j: Jail, m: Memory): Bytes
    requires |j.cgroups| <= MAX_CGROUPS && MemoryOk(m) && |Serialized(j, m)| < TWO64
  {
    Le64(|Serialized(j, m)|) + Serialized(j, m)
  }

  /** minijail_from_fd, which refuses more than 65535 bytes. */
  function Receive(b: Bytes): Arrival {
    if |b| < 8 then Broken
    else
      var size, body := FromLe64(b[..8]), b[8..];
      if size > USHRT_MAX || |body| < size then Broken else Unmarshal(body[..size])
  }

  /** A jail gets through the pipe exactly when it is not too long. */
  lemma PipeRoundTrip(j: Jail, m: Memory)
    requires Consistent(j) && MemoryOk(m) && |Serialized(j, m)| < TWO64
    ensures var u := Receive(Message(j, m));
      if |Serialized(j, m)| > 65535 then u == Broken
      else u.Arrived? && u.rest == [] && Carried(j, u.jail) && u.jail == Received(j)
  {
    var s := Serialized(j, m);
    Le64RoundTrip(|s|);
    assert Message(j, m)[..8] == Le64(|s|) && Message(j, m)[8..] == s && s[..|s|] == s;
    RoundTrip(j, m);
    SerializedParts(j, m);
    assert |GidBytes(j.gids)| <= |s|;
  }

  // ----- Bytes that no jail has -----

  /** How many of n strings are there. */
  function Strings(n: u64, b: Bytes): nat
    decreases n
  {
    if n == 0 || TakeStr(b).Fail? then 0 else 1 + Strings(n - 1, TakeStr(b).rest)
  }

  /** Reading stays inside the structure exactly when no eleventh cgroup is reached. */
  lemma OutsideExactly(b: Bytes)
    ensures Unmarshal(b).Outside?
            <==> BeforeCgroups(b).Got? && Strings(Announced(b).cgroupCount, BeforeCgroups(b).rest) > MAX_CGROUPS
  {
    if BeforeCgroups(b).Got? {
      BehindFrom(Announced(b).cgroupCount, [], BeforeCgroups(b).rest);
    }
  }

  lemma {:induction false} BehindFrom(n: u64, done: seq<CString>, b: Bytes)
    requires |done| <= MAX_CGROUPS
    ensures TakeCgroups(n, done, b).Behind? <==> |done| + Strings(n, b) > MAX_CGROUPS
    decreases n
  {
    if n > 0 && TakeStr(b).Got? && |done| < MAX_CGROUPS {
      BehindFrom(n - 1, done + [TakeStr(b).value], TakeStr(b).rest);
    }
  }

  lemma {:induction false} StringsOfNuls(n: nat, count: u64)
    requires count >= n
    ensures Strings(count, seq(n, _ => 0)) == n
    decreases n
  {
    var b := seq(n, _ => 0);
    if n > 0 {
      assert b[0] == 0 && b[1..] == seq(n - 1, _ => 0);
      StringsOfNuls(n - 1, count - 1);
    }
  }

  /** The image of a jail that is new but for the number of its cgroups, and eleven empty names. */
  lemma ElevenCgroups() returns (b: Bytes)
    ensures |b| == IMAGE_SIZE + 11 && Unmarshal(b).Outside?
  {
    var i := Image(NEW_JAIL.flags, 0, 0, 0, 0, 0, 0, 0, 0, 11, NEW_JAIL.plain, seq(OTHER_ADDRESSES, _ => 0));
    var names := seq(11, _ => 0);
    b := Le64s(ImageWords(i)) + names;
    ImageRead(i, names);
    StringsOfNuls(11, 11);
    NothingBefore(i, names);
    OutsideExactly(b);
  }

  lemma NothingBefore(i: Image, b: Bytes)
    requires i.user == i.gids == i.chrootdir == i.hostname == i.altTable == i.filterLen == i.mountCount == 0
    ensures TakeIds(i, Hollow(i), b).Got? && TakeIds(i, Hollow(i), b).rest == b
  {
  }
}
