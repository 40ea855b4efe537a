/** The bytes of a replay file, position by position: what is written, and exactly what is read. */
module ReplayLayout {
  import opened Int64
  import opened Replay

  /** A number's low bytes, lowest first. */
  function Little4(v: nat): (bs: seq<byte>)
    ensures |bs| == 4
  {
    [v % 256, v / 256 % 256, v / 65536 % 256, v / 16777216 % 256]
  }

  function Little8(v: nat): (bs: seq<byte>)
    ensures |bs| == 8
  {
    Little4(v) + Little4(v / 4294967296)
  }

  /** A constant's entry: its type, then the 64 bits of its value in two's complement. */
  function Entry(ty: byte, v: i64): (bs: seq<byte>)
    ensures |bs| == 9
  {
    assert IsI64(v);
    var w: int := v;
    [ty] + Little8(if w < 0 then w + 18446744073709551616 else w)
  }

  function Entries(types: seq<byte>, values: seq<i64>): (bs: seq<byte>)
    requires |types| == |values|
    ensures |bs| == 9 * |types|
  {
    if |types| == 0 then [] else Entry(types[0], values[0]) + Entries(types[1..], values[1..])
  }

  lemma {:induction false} EntryAt(types: seq<byte>, values: seq<i64>, i: nat)
    requires |types| == |values| && i < |types|
    ensures Entries(types, values)[9 * i..9 * i + 9] == Entry(types[i], values[i])
  {
    var first := Entry(types[0], values[0]);
    var later := Entries(types[1..], values[1..]);
    if i == 0 {
      assert (first + later)[0..9] == first;
    } else {
      EntryAt(types[1..], values[1..], i - 1);
      assert (first + later)[9 * i..9 * i + 9] == later[9 * (i - 1)..9 * (i - 1) + 9];
    }
  }

  /** The options: two numbers, a byte for each flag, and the seed. */
  function OptionLayout(o: Options, flags: seq<byte>): seq<byte> {
    Little4(o.optLevel) + Little4(o.maxInline) + flags + Little8(o.seed)
  }

  /** The file after its eight leading bytes. */
  function BodyLayout(j: Job, flags: seq<byte>): seq<byte>
    requires |j.pool.types| == |j.pool.values|
  {
    var locals := if j.maxLocals < 0 then j.maxLocals + 4294967296 else j.maxLocals;
    Little4(|j.bytecode|) + j.bytecode
    + Little4(|j.pool.types|) + Entries(j.pool.types, j.pool.values)
    + Little4(locals)
    + Little4(|j.name|) + j.name
    + OptionLayout(j.options, flags)
  }

  /** "AJRP", version one, and the fields in order. */
  function FileBytes(j: Job, flags: seq<byte>): seq<byte>
    requires |j.pool.types| == |j.pool.values|
  {
    [0x41, 0x4A, 0x52, 0x50] + [1, 0, 0, 0] + BodyLayout(j, flags)
  }

  /** The bytes written for the flags. */
  function FlagBytes(o: Options): (bs: seq<byte>)
    ensures |bs| == 4
  {
    [if o.gvn then 1 else 0, if o.constfold then 1 else 0, if o.dce then 1 else 0, if o.escape then 1 else 0]
  }

  // ----- what is written -----

  lemma FirstByte(v: nat, n: nat)
    ensures Bytes(v, n + 1) == [v % 256] + Bytes(v / 256, n)
  {
  }

  lemma FirstFour(v: nat, n: nat)
    ensures Bytes(v, n + 4) == Little4(v) + Bytes(v / 4294967296, n)
  {
    var a, b, c, d := v / 256, v / 65536, v / 16777216, v / 4294967296;
    assert a / 256 == b && b / 256 == c && c / 256 == d;
    FirstByte(v, n + 3);
    FirstByte(a, n + 2);
    FirstByte(b, n + 1);
    FirstByte(c, n);
  }

  lemma FourBytes(v: nat)
    ensures Bytes(v, 4) == Little4(v)
  {
    FirstFour(v, 0);
  }

  lemma EightBytes(v: nat)
    ensures Bytes(v, 8) == Little8(v)
  {
    FirstFour(v, 4);
    FourBytes(v / 4294967296);
  }

  /** Two pieces in front of the rest. */
  lemma Joined(a: seq<byte>, b: seq<byte>, rest: seq<byte>)
    ensures a + (b + rest) == a + b + rest
  {
  }

  lemma {:induction false} PoolLayout(types: seq<byte>, values: seq<i64>, rest: seq<byte>)
    requires |types| == |values|
    ensures PoolBytes(types, values, rest) == Entries(types, values) + rest
  {
    if |types| > 0 {
      PoolLayout(types[1..], values[1..], rest);
      EightBytes(U64(values[0]));
      assert IsI64(values[0]);
    }
  }

  lemma OptionsJoined(o: Options, flags: seq<byte>, rest: seq<byte>)
    ensures Bytes(o.optLevel, 4) + (Bytes(o.maxInline, 4) + (flags + (Bytes(o.seed, 8) + rest))) ==
      OptionLayout(o, flags) + rest
  {
    FourBytes(o.optLevel);
    FourBytes(o.maxInline);
    EightBytes(o.seed);
    var level, inline, seed := Bytes(o.optLevel, 4), Bytes(o.maxInline, 4), Bytes(o.seed, 8);
    Joined(level, inline, flags + (seed + rest));
    Joined(level + inline, flags, seed + rest);
    Joined(level + inline + flags, seed, rest);
  }

  lemma FourFlags(a: byte, b: byte, c: byte, d: byte, flags: seq<byte>, rest: seq<byte>)
    requires flags == [a, b, c, d]
    ensures [a] + ([b] + ([c] + ([d] + rest))) == flags + rest
  {
  }

  lemma OptionsLaidOut(o: Options, rest: seq<byte>)
    ensures OptionBytes(o, rest) == OptionLayout(o, FlagBytes(o)) + rest
  {
    FourFlags(Flag(o.gvn), Flag(o.constfold), Flag(o.dce), Flag(o.escape), FlagBytes(o), Bytes(o.seed, 8) + rest);
    OptionsJoined(o, FlagBytes(o), rest);
  }

  lemma EightJoined(a: seq<byte>, b: seq<byte>, c: seq<byte>, d: seq<byte>, e: seq<byte>, f: seq<byte>,
                    g: seq<byte>, h: seq<byte>, rest: seq<byte>)
    ensures a + (b + (c + (d + (e + (f + (g + (h + rest))))))) == a + b + c + d + e + f + g + h + rest
  {
    Joined(a, b, c + (d + (e + (f + (g + (h + rest))))));
    Joined(a + b, c, d + (e + (f + (g + (h + rest)))));
    Joined(a + b + c, d, e + (f + (g + (h + rest))));
    Joined(a + b + c + d, e, f + (g + (h + rest)));
    Joined(a + b + c + d + e, f, g + (h + rest));
    Joined(a + b + c + d + e + f, g, h + rest);
    Joined(a + b + c + d + e + f + g, h, rest);
  }

  lemma BodyLaidOut(j: Job, flags: seq<byte>, rest: seq<byte>)
    requires Consistent(j)
    ensures BytesBefore(j, OptionLayout(j.options, flags) + rest) == BodyLayout(j, flags) + rest
  {
    FourBytes(|j.bytecode|);
    FourBytes(|j.pool.types|);
    FourBytes(U32(j.maxLocals));
    FourBytes(|j.name|);
    var options := OptionLayout(j.options, flags);
    PoolLayout(j.pool.types, j.pool.values, Bytes(U32(j.maxLocals), 4) + BlockBytes(j.name, options + rest));
    var size, count, locals, length :=
      Bytes(|j.bytecode|, 4), Bytes(|j.pool.types|, 4), Bytes(U32(j.maxLocals), 4), Bytes(|j.name|, 4);
    EightJoined(size, j.bytecode, count, Entries(j.pool.types, j.pool.values), locals, length, j.name, options, rest);
  }

  lemma MagicWritten()
    ensures Bytes(MAGIC, 4) == [0x41, 0x4A, 0x52, 0x50] && Bytes(VERSION, 4) == [1, 0, 0, 0]
  {
    FourBytes(MAGIC);
    FourBytes(VERSION);
  }

  lemma HeadJoined(m: seq<byte>, n: seq<byte>, body: seq<byte>, rest: seq<byte>)
    ensures m + (n + (body + rest)) == m + n + body + rest
  {
    Joined(m, n, body + rest);
    Joined(m + n, body, rest);
  }

  /** Every byte of a job's file: "AJRP", version one, and the fields in order, flags as 0 or 1. */
  lemma FileLayout(j: Job, rest: seq<byte>)
    requires |j.pool.types| == |j.pool.values|
    ensures JobBytes(j, rest) == FileBytes(j, FlagBytes(j.options)) + rest
  {
    MagicWritten();
    OptionsLaidOut(j.options, rest);
    BodyLaidOut(j, FlagBytes(j.options), rest);
    HeadJoined([0x41, 0x4A, 0x52, 0x50], [1, 0, 0, 0], BodyLayout(j, FlagBytes(j.options)), rest);
  }

  /** A chunk's constants are written with type 0 for an integer, 1 for a double, 15 and zeros for null, and any
      other object by its type and zeros. */
  lemma ConstantEntries(c: Chunk, options: Options, i: nat)
    requires i < |c.constants|
    ensures var pool := JobOf(c, options).pool;
      && |pool.types| == |pool.values| == |c.constants|
      && Entries(pool.types, pool.values)[9 * i..9 * i + 9] == match c.constants[i]
         case NumberInt(v) => Entry(0, v)
         case NumberFloat(bits) => Entry(1, bits)
         case NullConstant => [15, 0, 0, 0, 0, 0, 0, 0, 0]
         case Other(tag) => [tag, 0, 0, 0, 0, 0, 0, 0, 0]
  {
    var pool := JobOf(c, options).pool;
    EntryAt(pool.types, pool.values, i);
    assert Entry(15, 0) == [15, 0, 0, 0, 0, 0, 0, 0, 0];
    if c.constants[i].Other? {
      assert Entry(c.constants[i].tag, 0) == [c.constants[i].tag, 0, 0, 0, 0, 0, 0, 0, 0];
    }
  }

  // ----- what is read -----

  /** Any other byte than 0 sets its flag. */
  predicate Sets(flags: seq<byte>, o: Options) {
    && |flags| == 4
    && (flags[0] != 0 <==> o.gvn) && (flags[1] != 0 <==> o.constfold)
    && (flags[2] != 0 <==> o.dce) && (flags[3] != 0 <==> o.escape)
  }

  /** Every number fits its field. */
  predicate FitsFields(j: Job) {
    && |j.bytecode| < 4294967296 && |j.pool.types| < 4294967296 && |j.name| < 4294967296
    && j.options.optLevel < 4294967296 && j.options.maxInline < 4294967296
    && j.options.seed < 18446744073709551616
  }

  /** The bytes are the job's file, whatever stands for its flags, and then the rest. */
  ghost predicate IsFile(xs: seq<byte>, j: Job, rest: seq<byte>) {
    |j.pool.types| == |j.pool.values| && FitsFields(j)
      && exists flags :: Sets(flags, j.options) && xs == FileBytes(j, flags) + rest
  }

  lemma {:induction false} BytesOfNumber(bs: seq<byte>)
    ensures Bytes(Number(bs), |bs|) == bs && Number(bs) < Base(|bs|)
  {
    if |bs| > 0 {
      BytesOfNumber(bs[1..]);
      var b: nat, n: nat := bs[0], Number(bs[1..]);
      assert (b + 256 * n) % 256 == b && (b + 256 * n) / 256 == n;
    }
  }

  lemma NumberRead(xs: seq<byte>, n: nat)
    requires ReadNumber(xs, n).Parsed?
    ensures var r := ReadNumber(xs, n); xs == Bytes(r.value, n) + r.rest && r.value < Base(n)
  {
    BytesOfNumber(xs[..n]);
    assert xs == xs[..n] + xs[n..];
  }

  lemma BlockRead(xs: seq<byte>)
    requires ReadBlock(xs).Parsed?
    ensures var r := ReadBlock(xs); xs == BlockBytes(r.value, r.rest) && |r.value| < Base(4)
  {
    NumberRead(xs, 4);
    var n := ReadNumber(xs, 4);
    assert n.rest == n.rest[..n.value] + n.rest[n.value..];
  }

  lemma I64Written(v: nat)
    requires v < TWO_64
    ensures U64(AsI64(v)) == v
  {
    assert IsI64(AsI64(v));
  }

  lemma {:induction false} PoolRead(xs: seq<byte>, n: nat)
    requires ReadPool(xs, n).Parsed?
    ensures var r := ReadPool(xs, n);
      && |r.value.types| == |r.value.values| == n
      && xs == PoolBytes(r.value.types, r.value.values, r.rest)
    decreases n
  {
    if n > 0 {
      var ty := ReadByte(xs);
      var v := ReadNumber(ty.rest, 8);
      var later := ReadPool(v.rest, n - 1);
      NumberRead(ty.rest, 8);
      Base8();
      I64Written(v.value);
      PoolRead(v.rest, n - 1);
      assert ([ty.value] + later.value.types)[1..] == later.value.types;
      assert ([AsI64(v.value)] + later.value.values)[1..] == later.value.values;
      assert xs == [ty.value] + ty.rest;
    }
  }

  lemma ByteRead(xs: seq<byte>)
    requires ReadByte(xs).Parsed?
    ensures xs == [ReadByte(xs).value] + ReadByte(xs).rest
  {
  }

  lemma OptionsRead(xs: seq<byte>) returns (flags: seq<byte>)
    requires ReadOptions(xs).Parsed?
    ensures var r := ReadOptions(xs);
      && Sets(flags, r.value) && xs == OptionLayout(r.value, flags) + r.rest
      && r.value.optLevel < Base(4) && r.value.maxInline < Base(4) && r.value.seed < Base(8)
  {
    var r1 := ReadNumber(xs, 4).rest;
    var r2 := ReadNumber(r1, 4).rest;
    NumberRead(xs, 4);
    NumberRead(r1, 4);
    ByteRead(r2);
    var r3 := r2[1..];
    ByteRead(r3);
    var r4 := r3[1..];
    ByteRead(r4);
    var r5 := r4[1..];
    ByteRead(r5);
    NumberRead(r5[1..], 8);
    flags := [r2[0], r3[0], r4[0], r5[0]];
    var r := ReadOptions(xs);
    FourFlags(r2[0], r3[0], r4[0], r5[0], flags, r5[1..]);
    OptionsJoined(r.value, flags, r.rest);
  }

  lemma I32Written(v: nat)
    requires v < 0x1_0000_0000
    ensures U32(AsI32(v)) == v
  {
  }

  lemma BodyRead(xs: seq<byte>) returns (flags: seq<byte>)
    requires ReadBody(xs).Parsed?
    ensures var r := ReadBody(xs);
      && Consistent(r.value) && Fits(r.value) && Sets(flags, r.value.options)
      && xs == BodyLayout(r.value, flags) + r.rest
  {
    var code := ReadBlock(xs);
    BlockRead(xs);
    var count := ReadNumber(code.rest, 4);
    NumberRead(code.rest, 4);
    var pool := ReadPool(count.rest, count.value);
    PoolRead(count.rest, count.value);
    var locals := ReadNumber(pool.rest, 4);
    NumberRead(pool.rest, 4);
    Base8();
    I32Written(locals.value);
    var name := ReadBlock(locals.rest);
    BlockRead(locals.rest);
    flags := OptionsRead(name.rest);
    BodyLaidOut(ReadBody(xs).value, flags, ReadBody(xs).rest);
  }

  lemma ReadsFlagByte(b: byte, rest: seq<byte>)
    ensures ReadFlag([b] + rest) == Parsed(b != 0, rest)
  {
    ReadsByte(b, rest);
  }

  lemma ReadsOptionLayout(o: Options, flags: seq<byte>, rest: seq<byte>)
    requires Sets(flags, o) && o.optLevel < Base(4) && o.maxInline < Base(4) && o.seed < Base(8)
    ensures ReadOptions(OptionLayout(o, flags) + rest) == Parsed(o, rest)
  {
    var t6 := Bytes(o.seed, 8) + rest;
    var t5, t4, t3 := [flags[3]] + t6, [flags[2]] + ([flags[3]] + t6), [flags[1]] + ([flags[2]] + ([flags[3]] + t6));
    var t2 := [flags[0]] + t3;
    FourFlags(flags[0], flags[1], flags[2], flags[3], flags, t6);
    OptionsJoined(o, flags, rest);
    ReadsNumber(o.optLevel, 4, Bytes(o.maxInline, 4) + t2);
    ReadsNumber(o.maxInline, 4, t2);
    ReadsFlagByte(flags[0], t3);
    ReadsFlagByte(flags[1], t4);
    ReadsFlagByte(flags[2], t5);
    ReadsFlagByte(flags[3], t6);
    ReadsNumber(o.seed, 8, rest);
  }

  lemma FileRead(xs: seq<byte>, j: Job, flags: seq<byte>, rest: seq<byte>)
    requires Consistent(j) && FitsFields(j) && Sets(flags, j.options) && xs == FileBytes(j, flags) + rest
    ensures ReadJob(xs) == Parsed(j, rest)
  {
    Base8();
    MagicWritten();
    HeadJoined([0x41, 0x4A, 0x52, 0x50], [1, 0, 0, 0], BodyLayout(j, flags), rest);
    ReadsNumber(MAGIC, 4, Bytes(VERSION, 4) + (BodyLayout(j, flags) + rest));
    ReadsNumber(VERSION, 4, BodyLayout(j, flags) + rest);
    ReadsOptionLayout(j.options, flags, rest);
    BodyLaidOut(j, flags, rest);
    ReadsBody(j, OptionLayout(j.options, flags) + rest, rest);
  }

  lemma HeadRead(xs: seq<byte>)
    requires ReadJob(xs).Parsed?
    ensures |xs| >= 8 && xs == [0x41, 0x4A, 0x52, 0x50] + ([1, 0, 0, 0] + xs[8..]) && ReadJob(xs) == ReadBody(xs[8..])
  {
    MagicWritten();
    NumberRead(xs, 4);
    NumberRead(xs[4..], 4);
    assert xs[4..][4..] == xs[8..];
  }

  /** Which bytes are read as which job: exactly the files of that job, whatever follows. */
  lemma ReadIff(xs: seq<byte>, j: Job, rest: seq<byte>)
    ensures ReadJob(xs) == Parsed(j, rest) <==> IsFile(xs, j, rest)
  {
    if ReadJob(xs) == Parsed(j, rest) {
      HeadRead(xs);
      var flags := BodyRead(xs[8..]);
      Base8();
      HeadJoined([0x41, 0x4A, 0x52, 0x50], [1, 0, 0, 0], BodyLayout(j, flags), rest);
    }
    if IsFile(xs, j, rest) {
      var flags :| Sets(flags, j.options) && xs == FileBytes(j, flags) + rest;
      FileRead(xs, j, flags, rest);
    }
  }

  // ----- what is refused -----

  lemma MagicIff(bs: seq<byte>)
    requires |bs| == 4
    ensures Number(bs) == MAGIC <==> bs == [0x41, 0x4A, 0x52, 0x50]
    ensures Number(bs) == VERSION <==> bs == [1, 0, 0, 0]
  {
    BytesOfNumber(bs);
    MagicWritten();
    Base8();
    NumberOfBytes(MAGIC, 4);
    NumberOfBytes(VERSION, 4);
  }

  lemma {:induction false} PoolFailsShort(xs: seq<byte>, n: nat)
    requires ReadPool(xs, n).Failed?
    ensures ReadPool(xs, n).error == UnexpectedEof
    decreases n
  {
    if n > 0 && ReadByte(xs).Parsed? && ReadNumber(ReadByte(xs).rest, 8).Parsed? {
      PoolFailsShort(ReadNumber(ReadByte(xs).rest, 8).rest, n - 1);
    }
  }

  lemma OptionsFailShort(xs: seq<byte>)
    requires ReadOptions(xs).Failed?
    ensures ReadOptions(xs).error == UnexpectedEof
  {
  }

  lemma BodyFailsShort(xs: seq<byte>)
    requires ReadBody(xs).Failed?
    ensures ReadBody(xs).error == UnexpectedEof
  {
    var code := ReadBlock(xs);
    if code.Parsed? {
      var count := ReadNumber(code.rest, 4);
      if count.Parsed? {
        var pool := ReadPool(count.rest, count.value);
        if pool.Failed? {
          PoolFailsShort(count.rest, count.value);
        } else {
          var locals := ReadNumber(pool.rest, 4);
          if locals.Parsed? && ReadBlock(locals.rest).Parsed? && ReadOptions(ReadBlock(locals.rest).rest).Failed? {
            OptionsFailShort(ReadBlock(locals.rest).rest);
          }
        }
      }
    }
  }

  /** Which files are refused for what they are: those that do not begin with "AJRP", and of the others those whose
      next four bytes are not version one. Every other failure is a file that ends too early. */
  lemma RefusedIff(xs: seq<byte>)
    ensures ReadJob(xs) == Failed(BadMagic) <==> |xs| >= 4 && xs[..4] != [0x41, 0x4A, 0x52, 0x50]
    ensures ReadJob(xs) == Failed(UnsupportedVersion) <==>
      |xs| >= 8 && xs[..4] == [0x41, 0x4A, 0x52, 0x50] && xs[4..8] != [1, 0, 0, 0]
  {
    if |xs| >= 4 {
      MagicIff(xs[..4]);
      var rest := xs[4..];
      if |xs| >= 8 {
        assert rest[..4] == xs[4..8];
        MagicIff(xs[4..8]);
        if ReadBody(rest[4..]).Failed? { BodyFailsShort(rest[4..]); }
      }
    }
  }
}
