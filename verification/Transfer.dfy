/**
 Marshalling as it runs: a writer that fills a buffer and counts on when it is full,
 and a reader that advances through one. Both are proved against the byte format of
 module Marshal; together they carry a jail through a pipe.
 */
module Transfer {
  import opened Words
  import opened Bpf
  import opened Jails
  import opened Marshal

  function Min(a: nat, b: nat): nat { if a < b then a else b }

  method Memcpy(buf: array<u8>, at: nat, src: Bytes, n: nat)
    requires at + n <= buf.Length && n <= |src|
    modifies buf
    ensures buf[..at + n] == old(buf[..at]) + src[..n]
  {
    var i := 0;
    while i < n
      invariant i <= n
      invariant buf[..at + i] == old(buf[..at]) + src[..i]
    {
      buf[at + i] := src[i];
      i := i + 1;
    }
  }

  /** struct marshal_state. */
  class MarshalState {
    const buf: array<u8>
    var at: nat
    var available: nat
    var total: nat
    /** All that was appended, whether or not it fitted. */
    ghost var all: Bytes

    ghost predicate Valid()
      reads this, buf
    {
      && total == |all|
      && at == Min(total, buf.Length)
      && available == buf.Length - at
      && buf[..at] == all[..at]
    }

    /** marshal_state_init */
    constructor (buf: array<u8>)
      ensures Valid() && all == [] && this.buf == buf
    {
      this.buf := buf;
      at, available, total, all := 0, buf.Length, 0, [];
    }

    /** marshal_append: as much as fits is copied, all of it is counted. */
    method Append(src: Bytes)
      requires Valid()
      modifies this, buf
      ensures Valid() && all == old(all) + src
    {
      var n := Min(available, |src|);
      Memcpy(buf, at, src, n);
      assert (all + src)[..at + n] == all[..at] + src[..n];
      at, available, total := at + n, available - n, total + |src|;
      all := all + src;
    }
  }

  /** marshal_mount */
  method MarshalMount(st: MarshalState, m: Mount)
    requires st.Valid()
    modifies st, st.buf
    ensures st.Valid() && st.all == old(st.all) + MountBytes(m)
  {
    ghost var start := st.all;
    st.Append(Str(m.src));
    st.Append(Str(m.dest));
    st.Append(Str(m.kind));
    st.Append(Le32(if m.data.Some? then 1 else 0));
    if m.data.Some? {
      st.Append(Str(m.data.value));
    }
    st.Append(Le64(m.flags));
    AppendedSix(start, Str(m.src), Str(m.dest), Str(m.kind), Le32(if m.data.Some? then 1 else 0),
                OptionalStr(m.data), Le64(m.flags));
  }

  lemma AppendedSix(s: Bytes, a: Bytes, b: Bytes, c: Bytes, d: Bytes, e: Bytes, f: Bytes)
    ensures s + a + b + c + d + e + f == s + (a + b + c + d + e + f)
    ensures s + a + b + c + d + [] == s + a + b + c + d
  {
  }

  method MarshalOptional(st: MarshalState, o: Option<CString>)
    requires st.Valid()
    modifies st, st.buf
    ensures st.Valid() && st.all == old(st.all) + OptionalStr(o)
  {
    if o.Some? {
      st.Append(Str(o.value));
    }
  }

  method MarshalMounts(st: MarshalState, ms: seq<Mount>)
    requires st.Valid()
    modifies st, st.buf
    ensures st.Valid() && st.all == old(st.all) + MountsBytes(ms)
  {
    var i := 0;
    while i < |ms|
      invariant i <= |ms| && st.Valid()
      invariant old(st.all) + MountsBytes(ms) == st.all + MountsBytes(ms[i..])
    {
      ghost var before := st.all;
      MarshalMount(st, ms[i]);
      Assoc(before, MountBytes(ms[i]), MountsBytes(ms[i..][1..]));
      assert ms[i..][1..] == ms[i + 1..];
      i := i + 1;
    }
  }

  method MarshalStrs(st: MarshalState, ss: seq<CString>)
    requires st.Valid()
    modifies st, st.buf
    ensures st.Valid() && st.all == old(st.all) + StrsBytes(ss)
  {
    var i := 0;
    while i < |ss|
      invariant i <= |ss| && st.Valid()
      invariant old(st.all) + StrsBytes(ss) == st.all + StrsBytes(ss[i..])
    {
      ghost var before := st.all;
      st.Append(Str(ss[i]));
      Assoc(before, Str(ss[i]), StrsBytes(ss[i..][1..]));
      assert ss[i..][1..] == ss[i + 1..];
      i := i + 1;
    }
  }

  /** minijail_marshal_helper */
  method MarshalJail(st: MarshalState, j: Jail, m: Memory)
    requires st.Valid() && st.all == [] && |j.cgroups| <= MAX_CGROUPS && MemoryOk(m)
    modifies st, st.buf
    ensures st.Valid() && st.all == Serialized(j, m)
  {
    var image := Le64s(ImageWords(ImageOf(j, m)));
    st.Append(image);
    assert st.all == image;
    MarshalNames(st, j);
    MarshalLists(st, j);
  }

  method MarshalFilter(st: MarshalState, j: Jail)
    requires st.Valid()
    modifies st, st.buf
    ensures st.Valid() && st.all == old(st.all) + FilterBytes(j)
  {
    if j.Has(SECCOMP_FILTER) && j.filter.Some? {
      st.Append(ProgramBytes(j.filter.value));
    }
  }

  method MarshalLists(st: MarshalState, j: Jail)
    requires st.Valid()
    modifies st, st.buf
    ensures st.Valid() && st.all == old(st.all) + FilterBytes(j) + MountsBytes(j.mounts) + StrsBytes(j.cgroups)
  {
    MarshalFilter(st, j);
    MarshalMounts(st, j.mounts);
    MarshalStrs(st, j.cgroups);
  }

  method MarshalNames(st: MarshalState, j: Jail)
    requires st.Valid()
    modifies st, st.buf
    ensures st.Valid() && st.all == old(st.all) + Ids(j) + Names(j)
  {
    ghost var start := st.all;
    MarshalOptional(st, j.user);
    if j.gids.Some? {
      st.Append(Le32s(j.gids.value));
    }
    MarshalOptional(st, j.chrootdir);
    MarshalOptional(st, j.hostname);
    MarshalOptional(st, j.altTable);
    AppendedFive(start, OptionalStr(j.user), GidBytes(j.gids), OptionalStr(j.chrootdir), OptionalStr(j.hostname),
                 OptionalStr(j.altTable));
  }

  lemma AppendedFive(s: Bytes, a: Bytes, b: Bytes, c: Bytes, d: Bytes, e: Bytes)
    ensures s + a + b + c + d + e == s + (a + b) + (c + d + e)
    ensures s + a + [] == s + a
  {
  }

  /** minijail_marshal: true stands for a buffer that was too small. */
  method MarshalTo(j: Jail, m: Memory, buf: array<u8>) returns (short: bool)
    requires |j.cgroups| <= MAX_CGROUPS && MemoryOk(m)
    modifies buf
    ensures short <==> |Serialized(j, m)| > buf.Length
    ensures var n := Min(|Serialized(j, m)|, buf.Length); buf[..n] == Serialized(j, m)[..n]
  {
    var st := new MarshalState(buf);
    MarshalJail(st, j, m);
    short := st.total > buf.Length;
  }

  /** minijail_size */
  method Size(j: Jail, m: Memory) returns (n: nat)
    requires |j.cgroups| <= MAX_CGROUPS && MemoryOk(m)
    ensures n == |Serialized(j, m)|
  {
    var nothing := new u8[0];
    var st := new MarshalState(nothing);
    MarshalJail(st, j, m);
    n := st.total;
  }

  // ----- Reading -----

  /** A step of the reader does what its specification says: r and what is left. */
  ghost predicate Does<T(!new)>(spec: Read<T>, r: Option<T>, left: Bytes) {
    match spec
    case Fail => r.None?
    case Got(value, rest) => r == Some(value) && left == rest
  }

  /** The pointer and length that minijail_unmarshal moves along. */
  class Cursor {
    const data: array<u8>
    var at: nat
    var length: nat

    ghost predicate Valid()
      reads this
    {
      at + length == data.Length
    }

    ghost function Left(): (b: Bytes)
      reads this, data
      requires Valid()
      ensures |b| == length
    {
      data[at..]
    }

    constructor (data: array<u8>)
      ensures Valid() && this.data == data && Left() == data[..]
    {
      this.data := data;
      at, length := 0, data.Length;
    }

    /** consumebytes */
    method ConsumeBytes(n: nat) returns (r: Option<Bytes>)
      requires Valid()
      modifies this
      ensures Valid() && Does(Take(n, old(Left())), r, Left())
      ensures r.None? ==> unchanged(this)
    {
      if n > length {
        return None;
      }
      r := Some(data[at..at + n]);
      assert old(Left())[..n] == r.value && old(Left())[n..] == data[at + n..];
      at, length := at + n, length - n;
    }

    /** consumestr */
    method ConsumeStr() returns (r: Option<CString>)
      requires Valid()
      modifies this
      ensures Valid() && Does(TakeStr(old(Left())), r, Left())
      ensures r.None? ==> unchanged(this)
    {
      ghost var b := Left();
      var n := 0;
      while n < length && data[at + n] != 0
        invariant n <= length && Strlen(b, 0) == Strlen(b, n)
      {
        assert b[n] == data[at + n];
        n := n + 1;
      }
      assert Strlen(b, 0) == n;
      if n == length {
        return None;
      }
      r := Some(data[at..at + n]);
      assert b[..n] == r.value && b[n + 1..] == data[at + n + 1..];
      at, length := at + n + 1, length - n - 1;
    }
  }

  method UnmarshalOptional(c: Cursor, pointer: u64) returns (r: Option<Option<CString>>)
    requires c.Valid()
    modifies c
    ensures c.Valid() && Does(TakeOptional(pointer, old(c.Left())), r, c.Left())
  {
    if pointer == 0 {
      return Some(None);
    }
    var s := c.ConsumeStr();
    r := if s.None? then None else Some(Some(s.value));
  }

  method UnmarshalGids(c: Cursor, pointer: u64, count: u64) returns (r: Option<Option<seq<u32>>>)
    requires c.Valid()
    modifies c
    ensures c.Valid() && Does(TakeGids(pointer, count, old(c.Left())), r, c.Left())
  {
    if pointer == 0 {
      return Some(None);
    }
    if count > NGROUPS_MAX {
      return None;
    }
    var b := c.ConsumeBytes(4 * count);
    r := if b.None? then None else Some(Some(FromLe32s(b.value, count)));
  }

  method UnmarshalFilter(c: Cursor, wanted: bool, count: u64) returns (r: Option<Option<seq<Instr>>>)
    requires c.Valid()
    modifies c
    ensures c.Valid() && Does(TakeFilter(wanted, count, old(c.Left())), r, c.Left())
  {
    if !wanted || count == 0 {
      return Some(None);
    }
    if count > USHRT_MAX {
      return None;
    }
    var b := c.ConsumeBytes(8 * count);
    r := if b.None? then None else Some(Some(ToProgram(b.value, count)));
  }

  method UnmarshalMountData(c: Cursor, src: CString, dest: CString, kind: CString) returns (r: Option<Mount>)
    requires c.Valid()
    modifies c
    ensures c.Valid() && Does(TakeMountData(src, dest, kind, old(c.Left())), r, c.Left())
  {
    var signal := c.ConsumeBytes(4);
    if signal.None? {
      return None;
    }
    var data := UnmarshalOptional(c, FromLe32(signal.value));
    if data.None? {
      return None;
    }
    var flags := c.ConsumeBytes(8);
    r := if flags.None? then None else Some(Mount(src, dest, kind, data.value, FromLe64(flags.value)));
  }

  method UnmarshalMount(c: Cursor) returns (r: Option<Mount>)
    requires c.Valid()
    modifies c
    ensures c.Valid() && Does(TakeMount(old(c.Left())), r, c.Left())
  {
    var src := c.ConsumeStr();
    if src.None? {
      return None;
    }
    var dest := c.ConsumeStr();
    if dest.None? {
      return None;
    }
    var kind := c.ConsumeStr();
    if kind.None? {
      return None;
    }
    r := UnmarshalMountData(c, src.value, dest.value, kind.value);
  }

  ghost predicate MountsFit(n: u64, r: Option<Jail>) { r.Some? ==> |r.value.mounts| + n < TWO64 }

  /** The outcome when n mounts are still to be read from b after those of r. */
  ghost function MountsLeft(n: u64, r: Option<Jail>, b: Bytes): Read<Jail>
    requires MountsFit(n, r)
  {
    if r.None? then Fail else TakeMounts(n, r.value, b)
  }

  lemma MountsGoOn(n: u64, j: Jail, b: Bytes, r: Option<Jail>, left: Bytes)
    requires n > 0 && MountsFit(n, Some(j)) && Does(TakeAndMount(j, b), r, left)
    ensures MountsFit(n - 1, r) && MountsLeft(n, Some(j), b) == MountsLeft(n - 1, r, left)
  {
  }

  lemma MountsDone(n: u64, r: Option<Jail>, left: Bytes)
    requires MountsFit(n, r) && (n == 0 || r.None?)
    ensures Does(MountsLeft(n, r, left), r, left)
  {
  }

  method UnmarshalOneMount(c: Cursor, n: u64, j: Jail) returns (r: Option<Jail>)
    requires c.Valid() && n > 0 && MountsFit(n, Some(j))
    modifies c
    ensures c.Valid() && MountsFit(n - 1, r)
    ensures MountsLeft(n - 1, r, c.Left()) == MountsLeft(n, Some(j), old(c.Left()))
  {
    var m := UnmarshalMount(c);
    r := if m.None? then None else MountWithData(j, m.value);
    MountsGoOn(n, j, old(c.Left()), r, c.Left());
  }

  method UnmarshalMounts(c: Cursor, count: u64, start: Jail) returns (r: Option<Jail>)
    requires c.Valid() && |start.mounts| + count < TWO64
    modifies c
    ensures c.Valid() && Does(TakeMounts(count, start, old(c.Left())), r, c.Left())
  {
    hide TakeMounts;
    ghost var spec := MountsLeft(count, Some(start), c.Left());
    var n := count;
    r := Some(start);
    while n > 0 && r.Some?
      invariant c.Valid() && MountsFit(n, r) && MountsLeft(n, r, c.Left()) == spec
    {
      r := UnmarshalOneMount(c, n, r.value);
      n := n - 1;
    }
    MountsDone(n, r, c.Left());
  }

  /** One more name, for the next entry of the array. */
  method NextCgroup(c: Cursor, n: u64, done: seq<CString>, ghost spec: Cgroups) returns (ok: bool, r: Cgroups)
    requires c.Valid() && n > 0 && spec == TakeCgroups(n, done, c.Left())
    modifies c
    ensures c.Valid()
    ensures !ok ==> r == spec
    ensures ok ==> r.Stored? && spec == TakeCgroups(n - 1, r.names, c.Left())
  {
    var s := c.ConsumeStr();
    if s.None? {
      return false, Missing;
    }
    if |done| >= MAX_CGROUPS {
      return false, Behind;
    }
    return true, Stored(done + [s.value], []);
  }

  /** The last loop. It stores the names in an array of ten without a look at their number. */
  method UnmarshalCgroups(c: Cursor, count: u64) returns (r: Cgroups)
    requires c.Valid()
    modifies c
    ensures c.Valid() && r == TakeCgroups(count, [], old(c.Left()))
  {
    hide TakeCgroups;
    var cgroups: seq<CString> := [];
    var n := count;
    ghost var spec := TakeCgroups(count, [], c.Left());
    while n > 0
      invariant c.Valid() && spec == TakeCgroups(n, cgroups, c.Left())
    {
      var ok;
      ok, r := NextCgroup(c, n, cgroups, spec);
      if !ok {
        return;
      }
      cgroups, n := r.names, n - 1;
    }
    NoneLeft(cgroups, c.Left());
    r := Stored(cgroups, c.data[c.at..]);
  }

  lemma NoneLeft(done: seq<CString>, b: Bytes)
    ensures TakeCgroups(0, done, b) == Stored(done, b)
  {
  }

  method UnmarshalLists(c: Cursor, i: Image, j: Jail) returns (r: Option<Jail>)
    requires c.Valid() && j.mounts == []
    modifies c
    ensures c.Valid() && Does(TakeLists(i, j, old(c.Left())), r, c.Left())
  {
    var filter := UnmarshalFilter(c, j.Has(SECCOMP_FILTER), i.filterLen);
    if filter.None? {
      return None;
    }
    r := UnmarshalMounts(c, i.mountCount, j.(filter := filter.value));
  }

  method UnmarshalNames(c: Cursor, i: Image, j: Jail) returns (r: Option<Jail>)
    requires c.Valid() && j.mounts == []
    modifies c
    ensures c.Valid() && Does(TakeNames(i, j, old(c.Left())), r, c.Left())
  {
    var chrootdir := UnmarshalOptional(c, i.chrootdir);
    if chrootdir.None? {
      return None;
    }
    var hostname := UnmarshalOptional(c, i.hostname);
    if hostname.None? {
      return None;
    }
    var altTable := UnmarshalOptional(c, i.altTable);
    if altTable.None? {
      return None;
    }
    r := UnmarshalLists(c, i,
      j.(chrootdir := chrootdir.value, hostname := hostname.value, altTable := altTable.value));
  }

  method UnmarshalIds(c: Cursor, i: Image, j: Jail) returns (r: Option<Jail>)
    requires c.Valid() && j.mounts == []
    modifies c
    ensures c.Valid() && Does(TakeIds(i, j, old(c.Left())), r, c.Left())
  {
    var user := UnmarshalOptional(c, i.user);
    if user.None? {
      return None;
    }
    var gids := UnmarshalGids(c, i.gids, i.gidCount);
    if gids.None? {
      return None;
    }
    r := UnmarshalNames(c, i, j.(user := user.value, gids := gids.value));
  }

  /** minijail_unmarshal */
  method UnmarshalFrom(data: array<u8>) returns (r: Arrival)
    ensures r == Unmarshal(data[..])
  {
    var c := new Cursor(data);
    var image := c.ConsumeBytes(IMAGE_SIZE);
    if image.None? {
      return Broken;
    }
    var i := ToImage(FromLe64s(image.value, IMAGE_WORDS));
    var before := UnmarshalIds(c, i, Hollow(i));
    if before.None? {
      return Broken;
    }
    var cgroups := UnmarshalCgroups(c, i.cgroupCount);
    r := Finished(before.value, cgroups);
  }

  /** minijail_copy_jail: the copy is what would arrive through a pipe. */
  method CopyJail(j: Jail, m: Memory) returns (copy: Option<Jail>)
    requires Consistent(j) && MemoryOk(m)
    ensures copy.Some? <==> j.gids == None || |j.gids.value| <= 65536
    ensures copy.Some? ==> Carried(j, copy.value)
  {
    var n := Size(j, m);
    var buf := new u8[n];
    var short := MarshalTo(j, m, buf);
    assert !short && buf[..] == Serialized(j, m) by {
      assert Min(n, n) == n;
      assert buf[..n] == buf[..] && Serialized(j, m)[..n] == Serialized(j, m);
    }
    RoundTrip(j, m);
    var r := UnmarshalFrom(buf);
    copy := if r.Arrived? then Some(r.jail) else None;
  }
}
