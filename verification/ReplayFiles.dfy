/** The replay file's writer, which appends to a buffer, and its reader, which moves a position. */
module ReplayFiles {
  import opened Int64
  import opened Replay

  datatype Expected<+T> = Value(value: T) | Unexpected(error: Error) {
    predicate IsFailure() { Unexpected? }

    function PropagateFailure<U>(): Expected<U>
      requires Unexpected?
    {
      Unexpected(error)
    }

    function Extract(): T
      requires Value?
    {
      value
    }
  }

  lemma Appended<T>(a: seq<T>, b: seq<T>, c: seq<T>)
    ensures a + (b + c) == (a + b) + c
  {
  }

  class Writer {
    var buf: seq<byte>

    constructor ()
      ensures buf == []
    {
      buf := [];
    }

    method WriteByte(b: byte)
      modifies this
      ensures buf == old(buf) + [b]
    {
      buf := buf + [b];
    }

    method WriteBytes(bs: seq<byte>)
      modifies this
      ensures buf == old(buf) + bs
    {
      buf := buf + bs;
    }

    /** The n low bytes of v, lowest first. */
    method WriteNumber(v: nat, n: nat)
      modifies this
      ensures buf == old(buf) + Bytes(v, n)
    {
      var w, i := v, 0;
      while i < n
        invariant i <= n && old(buf) + Bytes(v, n) == buf + Bytes(w, n - i)
      {
        Appended(buf, [w % 0x100], Bytes(w / 0x100, n - i - 1));
        WriteByte(w % 0x100);
        w, i := w / 0x100, i + 1;
      }
    }

    method WriteBlock(bs: seq<byte>, ghost rest: seq<byte>)
      modifies this
      ensures buf + rest == old(buf) + BlockBytes(bs, rest)
    {
      Appended(buf, Bytes(|bs|, 4), bs + rest);
      WriteNumber(|bs|, 4);
      Appended(buf, bs, rest);
      WriteBytes(bs);
    }

    method WritePool(types: seq<byte>, values: seq<i64>, ghost rest: seq<byte>)
      requires |types| == |values|
      modifies this
      ensures buf + rest == old(buf) + PoolBytes(types, values, rest)
    {
      var i := 0;
      while i < |types|
        invariant i <= |types| && old(buf) + PoolBytes(types, values, rest) ==
            buf + PoolBytes(types[i..], values[i..], rest)
      {
        ghost var next := PoolBytes(types[i + 1..], values[i + 1..], rest);
        assert types[i..][1..] == types[i + 1..] && values[i..][1..] == values[i + 1..];
        Appended(buf, [types[i]], Bytes(U64(values[i]), 8) + next);
        WriteByte(types[i]);
        Appended(buf, Bytes(U64(values[i]), 8), next);
        WriteNumber(U64(values[i]), 8);
        i := i + 1;
      }
    }

    method WriteFlag(b: bool, ghost rest: seq<byte>)
      modifies this
      ensures buf + rest == old(buf) + ([Flag(b)] + rest)
    {
      Appended(buf, [Flag(b)], rest);
      WriteByte(Flag(b));
    }

    method WriteField(v: nat, n: nat, ghost rest: seq<byte>)
      modifies this
      ensures buf + rest == old(buf) + (Bytes(v, n) + rest)
    {
      Appended(buf, Bytes(v, n), rest);
      WriteNumber(v, n);
    }

    method WriteOptions(o: Options)
      modifies this
      ensures buf == old(buf) + OptionBytes(o, [])
    {
      ghost var t7 := Bytes(o.seed, 8) + [];
      ghost var t6 := [Flag(o.escape)] + t7;
      ghost var t5 := [Flag(o.dce)] + t6;
      ghost var t4 := [Flag(o.constfold)] + t5;
      ghost var t3 := [Flag(o.gvn)] + t4;
      WriteField(o.optLevel, 4, Bytes(o.maxInline, 4) + t3);
      WriteField(o.maxInline, 4, t3);
      WriteFlag(o.gvn, t4);
      WriteFlag(o.constfold, t5);
      WriteFlag(o.dce, t6);
      WriteFlag(o.escape, t7);
      WriteField(o.seed, 8, []);
    }

    method WriteJob(j: Job)
      requires Consistent(j)
      modifies this
      ensures buf == old(buf) + JobBytes(j, [])
    {
      ghost var t5 := OptionBytes(j.options, []);
      ghost var t4 := BlockBytes(j.name, t5);
      ghost var t3 := Bytes(U32(j.maxLocals), 4) + t4;
      ghost var t2 := PoolBytes(j.pool.types, j.pool.values, t3);
      WriteField(MAGIC, 4, Bytes(VERSION, 4) + BodyBytes(j, []));
      WriteField(VERSION, 4, BodyBytes(j, []));
      WriteBlock(j.bytecode, Bytes(|j.pool.types|, 4) + t2);
      WriteField(|j.pool.types|, 4, t2);
      WritePool(j.pool.types, j.pool.values, t3);
      WriteField(U32(j.maxLocals), 4, t4);
      WriteBlock(j.name, t5);
      WriteOptions(j.options);
    }
  }

  /** The buffer that a job is written as. */
  method WriteReplay(j: Job) returns (buf: seq<byte>)
    requires Consistent(j)
    ensures buf == JobBytes(j, [])
  {
    var w := new Writer();
    w.WriteJob(j);
    buf := w.buf;
  }

  /** What a reader answered, seen as what the bytes from its position parse to. */
  ghost predicate Agrees<T(!new)>(p: Parsed<T>, r: Expected<T>, remaining: seq<byte>) {
    match p
    case Parsed(v, rest) => r == Value(v) && remaining == rest
    case Failed(e) => r == Unexpected(e)
  }

  class Reader {
    const data: seq<byte>
    var pos: nat

    constructor (data: seq<byte>)
      ensures this.data == data && pos == 0 && Remaining() == data
    {
      this.data, pos := data, 0;
    }

    ghost function Remaining(): seq<byte>
      reads this
    {
      if pos <= |data| then data[pos..] else []
    }

    ghost predicate Valid()
      reads this
    {
      pos <= |data|
    }

    method ReadByte() returns (r: Expected<byte>)
      requires Valid()
      modifies this
      ensures Valid() && Agrees(Replay.ReadByte(old(Remaining())), r, Remaining())
    {
      if pos >= |data| { return Unexpected(UnexpectedEof); }
      r := Value(data[pos]);
      pos := pos + 1;
    }

    /** n bytes, lowest first. */
    method ReadNumber(n: nat) returns (r: Expected<nat>)
      requires Valid()
      modifies this
      ensures Valid() && Agrees(Replay.ReadNumber(old(Remaining()), n), r, Remaining())
    {
      if pos + n > |data| { return Unexpected(UnexpectedEof); }
      var v, i := 0, n;
      ghost var all := data[pos..pos + n];
      while i > 0
        invariant 0 <= i <= n && v == Number(all[i..])
      {
        i := i - 1;
        assert all[i..][1..] == all[i + 1..];
        v := data[pos + i] as nat + 0x100 * v;
      }
      assert all[0..] == all == data[pos..][..n] && data[pos..][n..] == data[pos + n..];
      r := Value(v);
      pos := pos + n;
    }

    method ReadBytes(n: nat) returns (r: Expected<seq<byte>>)
      requires Valid()
      modifies this
      ensures Valid() && Agrees(Replay.ReadBytes(old(Remaining()), n), r, Remaining())
    {
      if pos + n > |data| { return Unexpected(UnexpectedEof); }
      assert data[pos..][..n] == data[pos..pos + n] && data[pos..][n..] == data[pos + n..];
      r := Value(data[pos..pos + n]);
      pos := pos + n;
    }

    method ReadBlock() returns (r: Expected<seq<byte>>)
      requires Valid()
      modifies this
      ensures Valid() && Agrees(Replay.ReadBlock(old(Remaining())), r, Remaining())
    {
      var n :- ReadNumber(4);
      r := ReadBytes(n);
    }

    method ReadFlag() returns (r: Expected<bool>)
      requires Valid()
      modifies this
      ensures Valid() && Agrees(Replay.ReadFlag(old(Remaining())), r, Remaining())
    {
      var b :- ReadByte();
      r := Value(b != 0);
    }

    method ReadExactly(v: nat, error: Error) returns (r: Expected<nat>)
      requires Valid()
      modifies this
      ensures Valid() && Agrees(Replay.ReadExactly(old(Remaining()), v, error), r, Remaining())
    {
      var n :- ReadNumber(4);
      if n != v { return Unexpected(error); }
      r := Value(n);
    }

    /** The first of n constants. */
    method ReadConstant(ghost n: nat) returns (r: Expected<(byte, i64)>)
      requires Valid() && n > 0
      modifies this
      ensures Valid()
      ensures Replay.ReadPool(old(Remaining()), n) ==
              if r.Value? then Prepended([r.value.0], [r.value.1], Replay.ReadPool(Remaining(), n - 1))
                  else Failed(r.error)
    {
      var ty :- ReadByte();
      var v :- ReadNumber(8);
      r := Value((ty, AsI64(v)));
    }

    /** One more constant behind those already read. */
    method ReadAnother(pool: Pool, ghost n: nat, ghost whole: Parsed<Pool>) returns (r: Expected<Pool>)
      requires Valid() && n > 0 && Continues(whole, pool, Replay.ReadPool(Remaining(), n))
      modifies this
      ensures Valid()
      ensures if r.Value? then Continues(whole, r.value, Replay.ReadPool(Remaining(), n - 1))
          else whole == Failed(r.error)
    {
      var c :- ReadConstant(n);
      PrependedTwice(pool, c.0, c.1, Replay.ReadPool(Remaining(), n - 1));
      r := Value(Pool(pool.types + [c.0], pool.values + [c.1]));
    }

    method ReadPool(n: nat) returns (r: Expected<Pool>)
      requires Valid()
      modifies this
      ensures Valid() && Agrees(Replay.ReadPool(old(Remaining()), n), r, Remaining())
    {
      var pool, i := Pool([], []), 0;
      ghost var whole := Replay.ReadPool(Remaining(), n);
      assert Continues(whole, pool, whole) by { PrependedNothing(whole); }
      while i < n
        invariant i <= n && Valid() && Continues(whole, pool, Replay.ReadPool(Remaining(), n - i))
      {
        pool :- ReadAnother(pool, n - i, whole);
        i := i + 1;
      }
      PoolComplete(whole, pool, Remaining());
      r := Value(pool);
    }

    method ReadOptions() returns (r: Expected<Options>)
      requires Valid()
      modifies this
      ensures Valid() && Agrees(Replay.ReadOptions(old(Remaining())), r, Remaining())
    {
      var ol :- ReadNumber(4);
      var mi :- ReadNumber(4);
      var gvn :- ReadFlag();
      var cf :- ReadFlag();
      var dce :- ReadFlag();
      var ea :- ReadFlag();
      var seed :- ReadNumber(8);
      r := Value(Options(ol, mi, gvn, cf, dce, ea, seed));
    }

    method ReadBody() returns (r: Expected<Job>)
      requires Valid()
      modifies this
      ensures Valid() && Agrees(Replay.ReadBody(old(Remaining())), r, Remaining())
    {
      var code :- ReadBlock();
      var n :- ReadNumber(4);
      var pool :- ReadPool(n);
      var ml :- ReadNumber(4);
      var name :- ReadBlock();
      var options :- ReadOptions();
      r := Value(Job(code, pool, AsI32(ml), name, options));
    }

    method ReadJob() returns (r: Expected<Job>)
      requires Valid()
      modifies this
      ensures Valid() && Agrees(Replay.ReadJob(old(Remaining())), r, Remaining())
    {
      var _ :- ReadExactly(MAGIC, BadMagic);
      var _ :- ReadExactly(VERSION, UnsupportedVersion);
      r := ReadBody();
    }
  }

  /** The pool that a reading completes when these constants were read before it. */
  function Prepended(types: seq<byte>, values: seq<i64>, p: Parsed<Pool>): Parsed<Pool> {
    match p
    case Parsed(pool, rest) => Parsed(Pool(types + pool.types, values + pool.values), rest)
    case Failed(_) => p
  }

  lemma PrependedNothing(p: Parsed<Pool>)
    ensures Prepended([], [], p) == p
  {
    if p.Parsed? { assert [] + p.value.types == p.value.types && [] + p.value.values == p.value.values; }
  }

  /** With these constants read, left is what remains of parsing the whole pool. */
  predicate Continues(whole: Parsed<Pool>, pool: Pool, left: Parsed<Pool>) {
    whole == Prepended(pool.types, pool.values, left)
  }

  lemma PoolComplete(whole: Parsed<Pool>, pool: Pool, rest: seq<byte>)
    requires Continues(whole, pool, Replay.ReadPool(rest, 0))
    ensures whole == Parsed(pool, rest)
  {
    assert pool.types + [] == pool.types && pool.values + [] == pool.values;
  }

  lemma PrependedTwice(pool: Pool, ty: byte, v: i64, p: Parsed<Pool>)
    ensures Prepended(pool.types, pool.values, Prepended([ty], [v], p)) ==
        Prepended(pool.types + [ty], pool.values + [v], p)
  {
    if p.Parsed? {
      Appended(pool.types, [ty], p.value.types);
      Appended(pool.values, [v], p.value.values);
    }
  }

  /** What a file holds: the job its bytes parse to, whatever follows it, or why they do not. */
  method ReadReplay(data: seq<byte>) returns (r: Expected<Job>)
    ensures match Replay.ReadJob(data) case Parsed(j, _) => r == Value(j) case Failed(e) => r == Unexpected(e)
  {
    var reader := new Reader(data);
    r := reader.ReadJob();
  }

  /** Only the numeric constants keep their values. */
  method MakeReplayJob(c: Chunk, options: Options) returns (j: Job)
    ensures j == JobOf(c, options)
  {
    var types: seq<byte>, values: seq<i64> := [], [];
    for i := 0 to |c.constants|
      invariant |types| == |values| == i
      invariant forall k :: 0 <= k < i ==> types[k] == TagOf(c.constants[k]) && values[k] == ValueOf(c.constants[k])
    {
      var k := c.constants[i];
      types := types + [TagOf(k)];
      values := values + [if k.NumberInt? then k.value else if k.NumberFloat? then k.bits else 0];
    }
    j := Job(c.code, Pool(types, values), c.maxLocals, c.name, options);
    assert j.pool.types == JobOf(c, options).pool.types && j.pool.values == JobOf(c, options).pool.values;
  }

  method ChunkFromReplay(j: Job) returns (c: Chunk)
    requires Consistent(j)
    ensures c == ChunkOf(j)
  {
    var constants: seq<Constant> := [];
    for i := 0 to |j.pool.types|
      invariant |constants| == i && forall k :: 0 <= k < i ==>
          constants[k] == ConstantOf(j.pool.types[k], j.pool.values[k])
    {
      var ty := j.pool.types[i];
      if ty == INT_TAG {
        constants := constants + [NumberInt(j.pool.values[i])];
      } else if ty == FLOAT_TAG {
        constants := constants + [NumberFloat(j.pool.values[i])];
      } else {
        constants := constants + [NullConstant];
      }
    }
    c := Chunk(j.bytecode, constants, j.maxLocals, j.name);
    assert c.constants == ChunkOf(j).constants;
  }

  /** Writing and reading back. */
  method SaveAndLoad(j: Job) returns (r: Expected<Job>)
    requires Consistent(j) && Fits(j)
    ensures r == Value(j)
  {
    var buf := WriteReplay(j);
    RoundTrip(j, []);
    r := ReadReplay(buf);
  }

  /** A chunk saved and loaded again keeps its code, its locals, its name, and its numeric constants at their indices.
      */
  method ReplayChunk(c: Chunk, options: Options) returns (d: Chunk)
    requires TagsApart(c) && Fits(JobOf(c, options))
    ensures d.code == c.code && d.maxLocals == c.maxLocals && d.name == c.name && |d.constants| == |c.constants|
    ensures forall i :: 0 <= i < |c.constants| ==>
      d.constants[i] == if c.constants[i].NumberInt? || c.constants[i].NumberFloat? then c.constants[i]
          else NullConstant
  {
    var j := MakeReplayJob(c, options);
    var r := SaveAndLoad(j);
    ChunkSurvives(c, options, []);
    RoundTrip(j, []);
    d := ChunkFromReplay(r.value);
  }
}
