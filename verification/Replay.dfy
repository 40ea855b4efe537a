/** The replay file: a compile job written to bytes and read back. */
module Replay {
  import opened Int64
  import B = Bytecode

  type byte = B.byte

  // ----- little-endian numbers -----

  function Base(n: nat): (r: nat)
    ensures r > 0
  {
    if n == 0 then 1 else 0x100 * Base(n - 1)
  }

  function Bytes(v: nat, n: nat): (r: seq<byte>)
    ensures |r| == n
  {
    if n == 0 then [] else [v % 0x100] + Bytes(v / 0x100, n - 1)
  }

  function Number(bs: seq<byte>): nat {
    if |bs| == 0 then 0 else bs[0] as nat + 0x100 * Number(bs[1..])
  }

  /** A number survives exactly if it fits. */
  lemma {:induction false} NumberOfBytes(v: nat, n: nat)
    ensures Number(Bytes(v, n)) <= v && (Number(Bytes(v, n)) == v <==> v < Base(n))
  {
    if n > 0 {
      var b := Bytes(v, n);
      assert b[1..] == Bytes(v / 0x100, n - 1);
      NumberOfBytes(v / 0x100, n - 1);
    }
  }

  // ----- reading -----

  datatype Error = UnexpectedEof | BadMagic | UnsupportedVersion

  /** What was read and the bytes that remain. */
  datatype Parsed<+T> = Parsed(value: T, rest: seq<byte>) | Failed(error: Error) {
    predicate IsFailure() { Failed? }

    function PropagateFailure<U>(): Parsed<U>
      requires Failed?
    {
      Failed(error)
    }

    function Extract(): (T, seq<byte>)
      requires Parsed?
    {
      (value, rest)
    }
  }

  function ReadBytes(xs: seq<byte>, n: nat): Parsed<seq<byte>> {
    if |xs| < n then Failed(UnexpectedEof) else Parsed(xs[..n], xs[n..])
  }

  function ReadByte(xs: seq<byte>): Parsed<byte> {
    if |xs| < 1 then Failed(UnexpectedEof) else Parsed(xs[0], xs[1..])
  }

  function ReadNumber(xs: seq<byte>, n: nat): Parsed<nat> {
    if |xs| < n then Failed(UnexpectedEof) else Parsed(Number(xs[..n]), xs[n..])
  }

  /** A length and that many bytes. */
  function ReadBlock(xs: seq<byte>): Parsed<seq<byte>> {
    var (n, r) :- ReadNumber(xs, 4);
    ReadBytes(r, n)
  }

  function ReadExactly(xs: seq<byte>, v: nat, error: Error): Parsed<nat> {
    var (n, r) :- ReadNumber(xs, 4);
    if n == v then Parsed(n, r) else Failed(error)
  }

  /** Types and values of the constants. */
  datatype Pool = Pool(types: seq<byte>, values: seq<i64>)

  function AsI64(v: nat): i64 { Wrap(v) }

  function ReadPool(xs: seq<byte>, n: nat): Parsed<Pool> {
    if n == 0 then Parsed(Pool([], []), xs)
    else
      var (ty, r) :- ReadByte(xs);
      var (v, r2) :- ReadNumber(r, 8);
      var (pool, r3) :- ReadPool(r2, n - 1);
      Parsed(Pool([ty] + pool.types, [AsI64(v)] + pool.values), r3)
  }

  datatype Options = Options(optLevel: nat, maxInline: nat, gvn: bool, constfold: bool, dce: bool, escape: bool,
      seed: nat)

  function ReadFlag(xs: seq<byte>): Parsed<bool> {
    var (b, r) :- ReadByte(xs);
    Parsed(b != 0, r)
  }

  function ReadOptions(xs: seq<byte>): Parsed<Options> {
    var (ol, r1) :- ReadNumber(xs, 4);
    var (mi, r2) :- ReadNumber(r1, 4);
    var (gvn, r3) :- ReadFlag(r2);
    var (cf, r4) :- ReadFlag(r3);
    var (dce, r5) :- ReadFlag(r4);
    var (ea, r6) :- ReadFlag(r5);
    var (seed, r7) :- ReadNumber(r6, 8);
    Parsed(Options(ol, mi, gvn, cf, dce, ea, seed), r7)
  }

  type int32 = x: int | -0x8000_0000 <= x < 0x8000_0000

  datatype Job = Job(bytecode: seq<byte>, pool: Pool, maxLocals: int32, name: seq<byte>, options: Options)

  const MAGIC: nat := 0x50524A41
  const VERSION: nat := 1

  function AsI32(v: nat): int32 { if v % 0x1_0000_0000 < 0x8000_0000 then v % 0x1_0000_0000
      else v % 0x1_0000_0000 - 0x1_0000_0000 }

  function ReadBody(xs: seq<byte>): Parsed<Job> {
    var (code, r1) :- ReadBlock(xs);
    var (n, r2) :- ReadNumber(r1, 4);
    var (pool, r3) :- ReadPool(r2, n);
    var (ml, r4) :- ReadNumber(r3, 4);
    var (name, r5) :- ReadBlock(r4);
    var (options, r6) :- ReadOptions(r5);
    Parsed(Job(code, pool, AsI32(ml), name, options), r6)
  }

  function ReadJob(xs: seq<byte>): Parsed<Job> {
    var (_, r1) :- ReadExactly(xs, MAGIC, BadMagic);
    var (_, r2) :- ReadExactly(r1, VERSION, UnsupportedVersion);
    ReadBody(r2)
  }

  // ----- writing: each piece in front of what follows it -----

  function PoolBytes(types: seq<byte>, values: seq<i64>, rest: seq<byte>): seq<byte>
    requires |types| == |values|
  {
    if |types| == 0 then rest
    else [types[0]] + (Bytes(U64(values[0]), 8) + PoolBytes(types[1..], values[1..], rest))
  }

  function U64(v: i64): nat {
    assert IsI64(v);
    var w: int := v;
    if w < 0 then w + TWO_64 else w
  }

  function U32(v: int32): nat { if v < 0 then v + 0x1_0000_0000 else v }

  function Flag(b: bool): byte { if b then 1 else 0 }

  function OptionBytes(o: Options, rest: seq<byte>): seq<byte> {
    Bytes(o.optLevel, 4) + (Bytes(o.maxInline, 4) + ([Flag(o.gvn)] + ([Flag(o.constfold)] +
      ([Flag(o.dce)] + ([Flag(o.escape)] + (Bytes(o.seed, 8) + rest))))))
  }

  function BlockBytes(bs: seq<byte>, rest: seq<byte>): seq<byte> { Bytes(|bs|, 4) + (bs + rest) }

  /** The file's bytes, followed by rest. */
  function JobBytes(j: Job, rest: seq<byte>): seq<byte>
    requires Consistent(j)
  {
    Bytes(MAGIC, 4) + (Bytes(VERSION, 4) + BodyBytes(j, rest))
  }

  function BodyBytes(j: Job, rest: seq<byte>): seq<byte>
    requires Consistent(j)
  {
    BytesBefore(j, OptionBytes(j.options, rest))
  }

  /** What comes before the options. */
  function BytesBefore(j: Job, options: seq<byte>): seq<byte>
    requires Consistent(j)
  {
    BlockBytes(j.bytecode, Bytes(|j.pool.types|, 4) +
      PoolBytes(j.pool.types, j.pool.values, Bytes(U32(j.maxLocals), 4) + BlockBytes(j.name, options)))
  }

  /** Each constant has a type and a value. */
  predicate Consistent(j: Job) { |j.pool.types| == |j.pool.values| }

  /** Everything fits its field. */
  predicate Fits(j: Job) {
    && |j.bytecode| < Base(4) && |j.pool.types| < Base(4) && |j.name| < Base(4)
    && j.options.optLevel < Base(4) && j.options.maxInline < Base(4) && j.options.seed < Base(8)
  }

  // ----- reading undoes writing -----

  lemma ReadsNumber(v: nat, n: nat, rest: seq<byte>)
    requires v < Base(n)
    ensures ReadNumber(Bytes(v, n) + rest, n) == Parsed(v, rest)
  {
    NumberOfBytes(v, n);
    assert (Bytes(v, n) + rest)[..n] == Bytes(v, n) && (Bytes(v, n) + rest)[n..] == rest;
  }

  lemma ReadsByte(b: byte, rest: seq<byte>)
    ensures ReadByte([b] + rest) == Parsed(b, rest)
  {
    assert ([b] + rest)[1..] == rest;
  }

  lemma ReadsBlock(bs: seq<byte>, rest: seq<byte>)
    requires |bs| < Base(4)
    ensures ReadBlock(BlockBytes(bs, rest)) == Parsed(bs, rest)
  {
    ReadsNumber(|bs|, 4, bs + rest);
    assert (bs + rest)[..|bs|] == bs && (bs + rest)[|bs|..] == rest;
  }

  lemma Base8()
    ensures Base(4) == 0x1_0000_0000 && Base(8) == TWO_64
  {
    assert Base(2) == 0x1_0000;
    assert Base(4) == 0x1_0000_0000;
    assert Base(6) == 0x1_0000_0000_0000;
  }

  lemma I64RoundTrip(v: i64)
    ensures U64(v) < TWO_64 && AsI64(U64(v)) == v
  {
    assert IsI64(v);
  }

  lemma I32RoundTrip(v: int32)
    ensures U32(v) < 0x1_0000_0000 && AsI32(U32(v)) == v
  {
  }

  lemma {:induction false} ReadsPool(types: seq<byte>, values: seq<i64>, rest: seq<byte>)
    requires |types| == |values|
    ensures ReadPool(PoolBytes(types, values, rest), |types|) == Parsed(Pool(types, values), rest)
  {
    if |types| > 0 {
      var tail := PoolBytes(types[1..], values[1..], rest);
      ReadsByte(types[0], Bytes(U64(values[0]), 8) + tail);
      I64RoundTrip(values[0]);
      Base8();
      ReadsNumber(U64(values[0]), 8, tail);
      ReadsPool(types[1..], values[1..], rest);
      assert [types[0]] + types[1..] == types && [values[0]] + values[1..] == values;
    }
  }

  lemma ReadsFlag(b: bool, rest: seq<byte>)
    ensures ReadFlag([Flag(b)] + rest) == Parsed(b, rest)
  {
    ReadsByte(Flag(b), rest);
  }

  lemma ReadsOptions(o: Options, rest: seq<byte>)
    requires o.optLevel < Base(4) && o.maxInline < Base(4) && o.seed < Base(8)
    ensures ReadOptions(OptionBytes(o, rest)) == Parsed(o, rest)
  {
    var t7 := Bytes(o.seed, 8) + rest;
    var t6 := [Flag(o.escape)] + t7;
    var t5 := [Flag(o.dce)] + t6;
    var t4 := [Flag(o.constfold)] + t5;
    var t3 := [Flag(o.gvn)] + t4;
    ReadsNumber(o.optLevel, 4, Bytes(o.maxInline, 4) + t3);
    ReadsNumber(o.maxInline, 4, t3);
    ReadsFlag(o.gvn, t4);
    ReadsFlag(o.constfold, t5);
    ReadsFlag(o.dce, t6);
    ReadsFlag(o.escape, t7);
    ReadsNumber(o.seed, 8, rest);
  }

  lemma ReadsBody(j: Job, t5: seq<byte>, rest: seq<byte>)
    requires Consistent(j) && Fits(j) && ReadOptions(t5) == Parsed(j.options, rest)
    ensures ReadBody(BytesBefore(j, t5)) == Parsed(j, rest)
  {
    var t4 := Bytes(U32(j.maxLocals), 4) + BlockBytes(j.name, t5);
    var t3 := PoolBytes(j.pool.types, j.pool.values, t4);
    ReadsBlock(j.bytecode, Bytes(|j.pool.types|, 4) + t3);
    ReadsNumber(|j.pool.types|, 4, t3);
    ReadsPool(j.pool.types, j.pool.values, t4);
    I32RoundTrip(j.maxLocals);
    Base8();
    ReadsNumber(U32(j.maxLocals), 4, BlockBytes(j.name, t5));
    ReadsBlock(j.name, t5);
  }

  /** Reading a written job, whatever follows it, gives the job and leaves what follows. */
  lemma RoundTrip(j: Job, rest: seq<byte>)
    requires Consistent(j) && Fits(j)
    ensures ReadJob(JobBytes(j, rest)) == Parsed(j, rest)
  {
    Base8();
    ReadsNumber(MAGIC, 4, Bytes(VERSION, 4) + BodyBytes(j, rest));
    ReadsNumber(VERSION, 4, BodyBytes(j, rest));
    ReadsOptions(j.options, rest);
    ReadsBody(j, OptionBytes(j.options, rest), rest);
  }

  // ----- a reader looks only at what it consumes -----

  predicate Suffix(r: seq<byte>, xs: seq<byte>) {
    |r| <= |xs| && xs[|xs| - |r|..] == r
  }

  /** What was consumed of xs when r remains, followed by ys instead. */
  function Instead(xs: seq<byte>, r: seq<byte>, ys: seq<byte>): seq<byte>
    requires |r| <= |xs|
  {
    xs[..|xs| - |r|] + ys
  }

  lemma InsteadTwice(xs: seq<byte>, r1: seq<byte>, r2: seq<byte>, ys: seq<byte>)
    requires Suffix(r1, xs) && Suffix(r2, r1)
    ensures Suffix(r2, xs) && Instead(xs, r1, Instead(r1, r2, ys)) == Instead(xs, r2, ys)
  {
    assert xs == xs[..|xs| - |r1|] + r1;
    assert xs[..|xs| - |r2|] == xs[..|xs| - |r1|] + r1[..|r1| - |r2|];
  }

  lemma ByteLocal(xs: seq<byte>, ys: seq<byte>)
    requires ReadByte(xs).Parsed?
    ensures var r := ReadByte(xs); Suffix(r.rest, xs) && ReadByte(Instead(xs, r.rest, ys)) == Parsed(r.value, ys)
  {
    assert xs[..1][0] == xs[0];
    assert Instead(xs, xs[1..], ys) == [xs[0]] + ys;
    assert ([xs[0]] + ys)[1..] == ys;
  }

  lemma BytesLocal(xs: seq<byte>, n: nat, ys: seq<byte>)
    requires ReadBytes(xs, n).Parsed?
    ensures var r := ReadBytes(xs, n);
        Suffix(r.rest, xs)
        && ReadBytes(Instead(xs, r.rest, ys), n) == Parsed(r.value, ys)
    ensures var r := ReadNumber(xs, n);
        Suffix(r.rest, xs)
        && ReadNumber(Instead(xs, r.rest, ys), n) == Parsed(r.value, ys)
  {
    assert Instead(xs, xs[n..], ys) == xs[..n] + ys;
    assert (xs[..n] + ys)[..n] == xs[..n] && (xs[..n] + ys)[n..] == ys;
  }

  lemma BlockLocal(xs: seq<byte>, ys: seq<byte>)
    requires ReadBlock(xs).Parsed?
    ensures var r := ReadBlock(xs); Suffix(r.rest, xs) && ReadBlock(Instead(xs, r.rest, ys)) == Parsed(r.value, ys)
  {
    var n := ReadNumber(xs, 4);
    var r := ReadBytes(n.rest, n.value);
    BytesLocal(n.rest, n.value, ys);
    BytesLocal(xs, 4, Instead(n.rest, r.rest, ys));
    InsteadTwice(xs, n.rest, r.rest, ys);
  }

  lemma ExactlyLocal(xs: seq<byte>, v: nat, error: Error, ys: seq<byte>)
    requires ReadExactly(xs, v, error).Parsed?
    ensures var r := ReadExactly(xs, v, error);
        Suffix(r.rest, xs)
        && ReadExactly(Instead(xs, r.rest, ys), v, error) == Parsed(r.value, ys)
  {
    BytesLocal(xs, 4, ys);
  }

  lemma {:induction false} PoolLocal(xs: seq<byte>, n: nat, ys: seq<byte>)
    requires ReadPool(xs, n).Parsed?
    ensures var r := ReadPool(xs, n); Suffix(r.rest, xs) && ReadPool(Instead(xs, r.rest, ys), n) == Parsed(r.value, ys)
    decreases n
  {
    if n == 0 {
      assert Instead(xs, xs, ys) == ys;
    } else {
      var r1 := ReadByte(xs).rest;
      var r2 := ReadNumber(r1, 8).rest;
      var r3 := ReadPool(r2, n - 1).rest;
      PoolLocal(r2, n - 1, ys);
      var y2 := Instead(r2, r3, ys);
      BytesLocal(r1, 8, y2);
      ByteLocal(xs, Instead(r1, r2, y2));
      InsteadTwice(r1, r2, r3, ys);
      InsteadTwice(xs, r1, r3, ys);
    }
  }

  lemma FlagLocal(xs: seq<byte>, ys: seq<byte>)
    requires ReadFlag(xs).Parsed?
    ensures var r := ReadFlag(xs); Suffix(r.rest, xs) && ReadFlag(Instead(xs, r.rest, ys)) == Parsed(r.value, ys)
  {
    ByteLocal(xs, ys);
  }

  lemma OptionsLocal(xs: seq<byte>, ys: seq<byte>)
    requires ReadOptions(xs).Parsed?
    ensures var r := ReadOptions(xs); Suffix(r.rest, xs) && ReadOptions(Instead(xs, r.rest, ys)) == Parsed(r.value, ys)
  {
    var r1 := ReadNumber(xs, 4).rest;
    var r2 := ReadNumber(r1, 4).rest;
    var r3 := ReadFlag(r2).rest;
    var r4 := ReadFlag(r3).rest;
    var r5 := ReadFlag(r4).rest;
    var r6 := ReadFlag(r5).rest;
    var r7 := ReadNumber(r6, 8).rest;
    BytesLocal(r6, 8, ys);
    var y6 := Instead(r6, r7, ys);
    FlagLocal(r5, y6);
    var y5 := Instead(r5, r6, y6);
    FlagLocal(r4, y5);
    var y4 := Instead(r4, r5, y5);
    FlagLocal(r3, y4);
    var y3 := Instead(r3, r4, y4);
    FlagLocal(r2, y3);
    var y2 := Instead(r2, r3, y3);
    BytesLocal(r1, 4, y2);
    BytesLocal(xs, 4, Instead(r1, r2, y2));
    InsteadTwice(r5, r6, r7, ys);
    InsteadTwice(r4, r5, r7, ys);
    InsteadTwice(r3, r4, r7, ys);
    InsteadTwice(r2, r3, r7, ys);
    InsteadTwice(r1, r2, r7, ys);
    InsteadTwice(xs, r1, r7, ys);
  }

  lemma BodyLocal(xs: seq<byte>, ys: seq<byte>)
    requires ReadBody(xs).Parsed?
    ensures var r := ReadBody(xs); Suffix(r.rest, xs) && ReadBody(Instead(xs, r.rest, ys)) == Parsed(r.value, ys)
  {
    var r1 := ReadBlock(xs).rest;
    var count := ReadNumber(r1, 4);
    var r2 := count.rest;
    var r3 := ReadPool(r2, count.value).rest;
    var r4 := ReadNumber(r3, 4).rest;
    var r5 := ReadBlock(r4).rest;
    var r6 := ReadOptions(r5).rest;
    OptionsLocal(r5, ys);
    var y5 := Instead(r5, r6, ys);
    BlockLocal(r4, y5);
    var y4 := Instead(r4, r5, y5);
    BytesLocal(r3, 4, y4);
    var y3 := Instead(r3, r4, y4);
    PoolLocal(r2, count.value, y3);
    var y2 := Instead(r2, r3, y3);
    BytesLocal(r1, 4, y2);
    BlockLocal(xs, Instead(r1, r2, y2));
    InsteadTwice(r4, r5, r6, ys);
    InsteadTwice(r3, r4, r6, ys);
    InsteadTwice(r2, r3, r6, ys);
    InsteadTwice(r1, r2, r6, ys);
    InsteadTwice(xs, r1, r6, ys);
  }

  lemma JobLocal(xs: seq<byte>, ys: seq<byte>)
    requires ReadJob(xs).Parsed?
    ensures var r := ReadJob(xs); Suffix(r.rest, xs) && ReadJob(Instead(xs, r.rest, ys)) == Parsed(r.value, ys)
  {
    var r1 := ReadExactly(xs, MAGIC, BadMagic).rest;
    var r2 := ReadExactly(r1, VERSION, UnsupportedVersion).rest;
    var r3 := ReadBody(r2).rest;
    BodyLocal(r2, ys);
    ExactlyLocal(r1, VERSION, UnsupportedVersion, Instead(r2, r3, ys));
    ExactlyLocal(xs, MAGIC, BadMagic, Instead(r1, r2, Instead(r2, r3, ys)));
    InsteadTwice(r1, r2, r3, ys);
    InsteadTwice(xs, r1, r3, ys);
  }

  lemma PutBack(full: seq<byte>, m: nat, r: seq<byte>)
    requires m <= |full| && Suffix(r, full[..m])
    ensures Instead(full[..m], r, full[m - |r|..]) == full
  {
    assert full[..m][..m - |r|] == full[..m - |r|];
  }

  /** Reading a prefix of a file leaves the rest of the file unread. */
  lemma PrefixLeavesRest(full: seq<byte>, m: nat)
    requires m <= |full| && ReadJob(full[..m]).Parsed?
    ensures ReadJob(full).Parsed? && |ReadJob(full).rest| >= |full| - m
  {
    var cut := full[..m];
    var r := ReadJob(cut).rest;
    assert Suffix(r, cut) by { JobLocal(cut, []); }
    PutBack(full, m, r);
    JobLocal(cut, full[m - |r|..]);
  }

  /** A truncated file is never taken for a job. */
  lemma PrefixRejected(j: Job, m: nat)
    requires Consistent(j) && Fits(j) && m < |JobBytes(j, [])|
    ensures ReadJob(JobBytes(j, [])[..m]).Failed?
  {
    RoundTrip(j, []);
    if ReadJob(JobBytes(j, [])[..m]).Parsed? { PrefixLeavesRest(JobBytes(j, []), m); }
  }

  // ----- chunks -----

  /** A constant as the replay file distinguishes them; floats by their bits. */
  datatype Constant = NumberInt(value: i64) | NumberFloat(bits: i64) | NullConstant | Other(tag: byte)

  datatype Chunk = Chunk(code: seq<byte>, constants: seq<Constant>, maxLocals: int32, name: seq<byte>)

  const INT_TAG: byte := 0
  const FLOAT_TAG: byte := 1
  const NULL_TAG: byte := 15

  function TagOf(c: Constant): byte {
    match c
    case NumberInt(_) => INT_TAG
    case NumberFloat(_) => FLOAT_TAG
    case NullConstant => NULL_TAG
    case Other(tag) => tag
  }

  function ValueOf(c: Constant): i64 {
    match c
    case NumberInt(v) => v
    case NumberFloat(bits) => bits
    case _ => 0
  }

  function ConstantOf(tag: byte, value: i64): Constant {
    if tag == INT_TAG then NumberInt(value) else if tag == FLOAT_TAG then NumberFloat(value) else NullConstant
  }

  function JobOf(c: Chunk, options: Options): Job {
    Job(c.code, Pool(seq(|c.constants|, i requires 0 <= i < |c.constants| => TagOf(c.constants[i])),
                     seq(|c.constants|, i requires 0 <= i < |c.constants| => ValueOf(c.constants[i]))), c.maxLocals,
                         c.name, options)
  }

  function ChunkOf(j: Job): Chunk
    requires Consistent(j)
  {
    Chunk(j.bytecode, seq(|j.pool.types|, i requires 0 <= i < |j.pool.types| => ConstantOf(j.pool.types[i],
        j.pool.values[i])), j.maxLocals, j.name)
  }

  /** Tags of other objects are none of the numeric ones. */
  predicate TagsApart(c: Chunk) {
    forall i :: 0 <= i < |c.constants| && c.constants[i].Other? ==>
        c.constants[i].tag != INT_TAG && c.constants[i].tag != FLOAT_TAG
  }

  /** Saved to a file, read back and rebuilt, a chunk keeps its code, its name, its locals, and every numeric
      constant at its index, bit for bit; other constants become null. */
  lemma ChunkSurvives(c: Chunk, options: Options, rest: seq<byte>)
    requires TagsApart(c) && Fits(JobOf(c, options))
    ensures var r := ReadJob(JobBytes(JobOf(c, options), rest));
      && r.Parsed? && r.rest == rest && r.value.options == options && Consistent(r.value)
      && var d := ChunkOf(r.value);
         d.code == c.code && d.maxLocals == c.maxLocals && d.name == c.name && |d.constants| == |c.constants|
         && forall i :: 0 <= i < |c.constants| ==>
              d.constants[i] == if c.constants[i].NumberInt?
                  || c.constants[i].NumberFloat? then c.constants[i] else NullConstant
  {
    RoundTrip(JobOf(c, options), rest);
  }
}
