/** The length-prefixed encoding of a folder listing, and a decoder for it. */
module WireFormat {

  type byte = x: int | 0 <= x < 256

  type Bytes = seq<byte>

  datatype FileView = FileView(name: Bytes, content: Bytes)

  /** What the response tells about one child folder. */
  datatype ChildView = ChildView(id: Bytes, hasChildren: bool, size: int, files: seq<FileView>)

  const TWO_32 := 0x1_0000_0000
  const TWO_63 := 0x8000_0000_0000_0000
  const TWO_64 := 0x1_0000_0000_0000_0000

  // ----- Integers -----

  /** The `width` low-order bytes of `n`, most significant first. */
  function BigEndian(n: nat, width: nat): (b: Bytes)
    ensures |b| == width
  {
    if width == 0 then [] else BigEndian(n / 256, width - 1) + [n % 256]
  }

  function FromBytes(b: Bytes): nat {
    if b == [] then 0 else FromBytes(b[..|b| - 1]) * 256 + b[|b| - 1]
  }

  function Pow256(width: nat): nat {
    if width == 0 then 1 else Pow256(width - 1) * 256
  }

  lemma Widths()
    ensures Pow256(4) == TWO_32 && Pow256(8) == TWO_64
  {
    assert Pow256(2) == 256 * 256;
    assert Pow256(4) == Pow256(3) * 256 == Pow256(2) * 256 * 256;
    assert Pow256(6) == Pow256(5) * 256 == Pow256(4) * 256 * 256;
    assert Pow256(8) == Pow256(7) * 256 == Pow256(6) * 256 * 256;
  }

  lemma {:induction false} BigEndianRoundTrip(n: nat, width: nat)
    requires n < Pow256(width)
    ensures FromBytes(BigEndian(n, width)) == n
  {
    if width > 0 {
      var b := BigEndian(n, width);
      assert b[..|b| - 1] == BigEndian(n / 256, width - 1);
      BigEndianRoundTrip(n / 256, width - 1);
    }
  }

  lemma {:induction false} FromBytesBound(b: Bytes)
    ensures FromBytes(b) < Pow256(|b|)
  {
    if b != [] {
      FromBytesBound(b[..|b| - 1]);
    }
  }

  /** Conversion to an unsigned 32-bit integer, then its bytes. */
  function Int32(v: int): (b: Bytes)
    ensures |b| == 4
  {
    BigEndian(v % TWO_32, 4)
  }

  function Int64(v: int): (b: Bytes)
    ensures |b| == 8
  {
    BigEndian(v % TWO_64, 8)
  }

  function Signed64(n: nat): int {
    if n < TWO_63 then n else n - TWO_64
  }

  lemma Int32RoundTrip(v: int)
    ensures FromBytes(Int32(v)) == v <==> 0 <= v < TWO_32
  {
    Widths();
    BigEndianRoundTrip(v % TWO_32, 4);
  }

  lemma Int64RoundTrip(v: int)
    ensures Signed64(FromBytes(Int64(v))) == v <==> -TWO_63 <= v < TWO_63
  {
    Widths();
    BigEndianRoundTrip(v % TWO_64, 8);
  }

  lemma LastByte(q: nat, r: byte, width: nat)
    ensures BigEndian(256 * q + r, width + 1) == BigEndian(q, width) + [r]
  {
    assert (256 * q + r) / 256 == q && (256 * q + r) % 256 == r;
  }

  lemma FourBytes(q: nat, a: byte, b: byte, c: byte, d: byte, width: nat)
    ensures BigEndian(4294967296 * q + 16777216 * a + 65536 * b + 256 * c + d, width + 4) ==
            BigEndian(q, width) + [a, b, c, d]
  {
    var q1 := 256 * q + a;
    var q2 := 256 * q1 + b;
    var q3 := 256 * q2 + c;
    LastByte(q, a, width);
    LastByte(q1, b, width + 1);
    LastByte(q2, c, width + 2);
    LastByte(q3, d, width + 3);
    assert BigEndian(q, width) + [a] + [b] + [c] + [d] == BigEndian(q, width) + [a, b, c, d];
  }

  lemma WithinWidth(n: nat, m: nat)
    requires n < m
    ensures n % m == n
  {
  }

  lemma LowHalf(a: byte, b: byte, c: byte, d: byte)
    ensures 0 <= 16777216 * a + 65536 * b + 256 * c + d < TWO_32
  {
  }

  /** The bytes on the wire, the most significant first. */
  lemma Int32Bytes(a: byte, b: byte, c: byte, d: byte)
    ensures Int32(16777216 * a + 65536 * b + 256 * c + d) == [a, b, c, d]
  {
    LowHalf(a, b, c, d);
    WithinWidth(16777216 * a + 65536 * b + 256 * c + d, TWO_32);
    FourBytes(0, a, b, c, d, 0);
    assert BigEndian(0, 0) + [a, b, c, d] == [a, b, c, d];
  }

  /** An eight-byte number: its upper four bytes and then its lower four. */
  lemma Int64Bytes(q: nat, a: byte, b: byte, c: byte, d: byte)
    requires q < 4294967296
    ensures Int64(4294967296 * q + 16777216 * a + 65536 * b + 256 * c + d) == Int32(q) + [a, b, c, d]
  {
    LowHalf(a, b, c, d);
    WithinWidth(4294967296 * q + 16777216 * a + 65536 * b + 256 * c + d, TWO_64);
    WithinWidth(q, TWO_32);
    FourBytes(q, a, b, c, d, 4);
  }

  // ----- Encoding -----

  function EncodeString(s: Bytes): Bytes {
    Int32(|s|) + s
  }

  function EncodeFile(f: FileView): Bytes {
    EncodeString(f.name) + Int64(|f.content|) + f.content
  }

  function EncodeMany<T>(items: seq<T>, encode: T -> Bytes): Bytes {
    if items == [] then [] else EncodeMany(items[..|items| - 1], encode) + encode(items[|items| - 1])
  }

  function EncodeFiles(files: seq<FileView>): Bytes {
    EncodeMany(files, EncodeFile)
  }

  function EncodeChild(c: ChildView): Bytes {
    EncodeString(c.id) + Int32(if c.hasChildren then 1 else 0) + Int64(c.size) + Int32(|c.files|) + EncodeFiles(c.files)
  }

  function EncodeChildren(children: seq<ChildView>): Bytes {
    EncodeMany(children, EncodeChild)
  }

  /** The whole response body. */
  function Encode(children: seq<ChildView>): Bytes {
    Int32(|children|) + EncodeChildren(children)
  }

  /** Where the parts of one child lie. */
  lemma ChildOnWire(c: ChildView)
    ensures var b, n := EncodeChild(c), |c.id|;
            && |b| >= 20 + n && b[..4] == Int32(n) && b[4..4 + n] == c.id
            && b[4 + n..8 + n] == [0, 0, 0, if c.hasChildren then 1 else 0]
            && b[8 + n..16 + n] == Int64(c.size) && b[16 + n..20 + n] == Int32(|c.files|)
  {
    Int32Bytes(0, 0, 0, if c.hasChildren then 1 else 0);
  }

  lemma FileOnWire(f: FileView)
    ensures var b, n := EncodeFile(f), |f.name|;
            && |b| == 12 + n + |f.content| && b[..4] == Int32(n) && b[4..4 + n] == f.name
            && b[4 + n..12 + n] == Int64(|f.content|) && b[12 + n..] == f.content
  {
  }

  // ----- Decoding -----

  datatype Parsed<+T> = Malformed | Parsed(value: T, rest: Bytes)

  function DecodeInt32(b: Bytes): Parsed<nat> {
    if |b| < 4 then Malformed else Parsed(FromBytes(b[..4]), b[4..])
  }

  function DecodeInt64(b: Bytes): Parsed<int> {
    if |b| < 8 then Malformed else Parsed(Signed64(FromBytes(b[..8])), b[8..])
  }

  function DecodeBytes(n: int, b: Bytes): Parsed<Bytes> {
    if n < 0 || |b| < n then Malformed else Parsed(b[..n], b[n..])
  }

  function DecodeString(b: Bytes): Parsed<Bytes> {
    match DecodeInt32(b)
    case Malformed => Malformed
    case Parsed(n, rest) => DecodeBytes(n, rest)
  }

  function DecodeFile(b: Bytes): Parsed<FileView> {
    match DecodeString(b)
    case Malformed => Malformed
    case Parsed(name, b1) =>
      match DecodeInt64(b1)
      case Malformed => Malformed
      case Parsed(n, b2) =>
        match DecodeBytes(n, b2)
        case Malformed => Malformed
        case Parsed(content, b3) => Parsed(FileView(name, content), b3)
  }

  /** Exactly `n` items, one after the other. */
  function DecodeMany<T>(n: nat, b: Bytes, decode: Bytes -> Parsed<T>): Parsed<seq<T>> {
    if n == 0 then Parsed([], b)
    else
      match DecodeMany(n - 1, b, decode)
      case Malformed => Malformed
      case Parsed(items, b1) =>
        match decode(b1)
        case Malformed => Malformed
        case Parsed(x, b2) => Parsed(items + [x], b2)
  }

  function DecodeFiles(n: nat, b: Bytes): Parsed<seq<FileView>> {
    DecodeMany(n, b, DecodeFile)
  }

  function DecodeChild(b: Bytes): Parsed<ChildView> {
    match DecodeString(b)
    case Malformed => Malformed
    case Parsed(id, b1) =>
      match DecodeInt32(b1)
      case Malformed => Malformed
      case Parsed(flag, b2) =>
        match DecodeInt64(b2)
        case Malformed => Malformed
        case Parsed(size, b3) =>
          match DecodeInt32(b3)
          case Malformed => Malformed
          case Parsed(n, b4) =>
            match DecodeFiles(n, b4)
            case Malformed => Malformed
            case Parsed(files, b5) => Parsed(ChildView(id, flag != 0, size, files), b5)
  }

  function DecodeChildren(n: nat, b: Bytes): Parsed<seq<ChildView>> {
    DecodeMany(n, b, DecodeChild)
  }

  function Decode(b: Bytes): Parsed<seq<ChildView>> {
    match DecodeInt32(b)
    case Malformed => Malformed
    case Parsed(n, rest) => DecodeChildren(n, rest)
  }

  // ----- Round trip -----

  predicate FileFits(f: FileView) {
    |f.name| < TWO_32 && |f.content| < TWO_63
  }

  predicate ChildFits(c: ChildView) {
    && |c.id| < TWO_32 && -TWO_63 <= c.size < TWO_63 && |c.files| < TWO_32
    && forall i :: 0 <= i < |c.files| ==> FileFits(c.files[i])
  }

  /** Counts and lengths fit the widths they are written in. */
  predicate Fits(children: seq<ChildView>) {
    |children| < TWO_32 && forall i :: 0 <= i < |children| ==> ChildFits(children[i])
  }

  lemma Int32ReadBack(v: int, rest: Bytes)
    requires 0 <= v < TWO_32
    ensures DecodeInt32(Int32(v) + rest) == Parsed(v, rest)
  {
    Int32RoundTrip(v);
    assert (Int32(v) + rest)[..4] == Int32(v) && (Int32(v) + rest)[4..] == rest;
  }

  lemma Int64ReadBack(v: int, rest: Bytes)
    requires -TWO_63 <= v < TWO_63
    ensures DecodeInt64(Int64(v) + rest) == Parsed(v, rest)
  {
    Int64RoundTrip(v);
    assert (Int64(v) + rest)[..8] == Int64(v) && (Int64(v) + rest)[8..] == rest;
  }

  lemma BytesReadBack(s: Bytes, rest: Bytes)
    ensures DecodeBytes(|s|, s + rest) == Parsed(s, rest)
  {
    assert (s + rest)[..|s|] == s && (s + rest)[|s|..] == rest;
  }

  lemma StringReadBack(s: Bytes, rest: Bytes)
    requires |s| < TWO_32
    ensures DecodeString(EncodeString(s) + rest) == Parsed(s, rest)
  {
    assert EncodeString(s) + rest == Int32(|s|) + (s + rest);
    Int32ReadBack(|s|, s + rest);
    BytesReadBack(s, rest);
  }

  lemma FileReadBack(f: FileView, rest: Bytes)
    requires FileFits(f)
    ensures DecodeFile(EncodeFile(f) + rest) == Parsed(f, rest)
  {
    var b1 := Int64(|f.content|) + (f.content + rest);
    assert EncodeFile(f) + rest == EncodeString(f.name) + b1;
    StringReadBack(f.name, b1);
    Int64ReadBack(|f.content|, f.content + rest);
    BytesReadBack(f.content, rest);
  }

  lemma Regroup(x: Bytes, y: Bytes, z: Bytes)
    ensures (x + y) + z == x + (y + z)
  {
  }

  /** If single items can be read back, so can a sequence of them. */
  lemma {:induction false} ManyReadBack<T(!new)>(items: seq<T>, encode: T -> Bytes, decode: Bytes -> Parsed<T>,
                                          rest: Bytes)
    requires forall x, r :: x in items ==> decode(encode(x) + r) == Parsed(x, r)
    ensures DecodeMany(|items|, EncodeMany(items, encode) + rest, decode) == Parsed(items, rest)
  {
    if items == [] {
      assert EncodeMany(items, encode) + rest == rest;
    } else {
      var init, last := items[..|items| - 1], items[|items| - 1];
      assert items == init + [last];
      Regroup(EncodeMany(init, encode), encode(last), rest);
      ManyReadBack(init, encode, decode, encode(last) + rest);
    }
  }

  lemma FilesReadBack(files: seq<FileView>, rest: Bytes)
    requires forall i :: 0 <= i < |files| ==> FileFits(files[i])
    ensures DecodeFiles(|files|, EncodeFiles(files) + rest) == Parsed(files, rest)
  {
    forall f, r | f in files
      ensures DecodeFile(EncodeFile(f) + r) == Parsed(f, r)
    {
      FileReadBack(f, r);
    }
    ManyReadBack(files, EncodeFile, DecodeFile, rest);
  }

  lemma ChildLayout(c: ChildView, rest: Bytes)
    ensures EncodeChild(c) + rest ==
            EncodeString(c.id) + (Int32(if c.hasChildren then 1 else 0)
              + (Int64(c.size) + (Int32(|c.files|) + (EncodeFiles(c.files) + rest))))
  {
  }

  lemma ChildReadBack(c: ChildView, rest: Bytes)
    requires ChildFits(c)
    ensures DecodeChild(EncodeChild(c) + rest) == Parsed(c, rest)
  {
    var flag := if c.hasChildren then 1 else 0;
    var b4 := EncodeFiles(c.files) + rest;
    var b3 := Int32(|c.files|) + b4;
    var b2 := Int64(c.size) + b3;
    var b1 := Int32(flag) + b2;
    ChildLayout(c, rest);
    StringReadBack(c.id, b1);
    Int32ReadBack(flag, b2);
    Int64ReadBack(c.size, b3);
    Int32ReadBack(|c.files|, b4);
    FilesReadBack(c.files, rest);
  }

  lemma ChildrenReadBack(children: seq<ChildView>, rest: Bytes)
    requires forall i :: 0 <= i < |children| ==> ChildFits(children[i])
    ensures DecodeChildren(|children|, EncodeChildren(children) + rest) == Parsed(children, rest)
  {
    forall c, r | c in children
      ensures DecodeChild(EncodeChild(c) + r) == Parsed(c, r)
    {
      ChildReadBack(c, r);
    }
    ManyReadBack(children, EncodeChild, DecodeChild, rest);
  }

  // ----- Nothing else can be decoded -----

  lemma Int32Decoded(b: Bytes)
    ensures DecodeInt32(b).Parsed? ==> DecodeInt32(b).value < TWO_32
  {
    if |b| >= 4 {
      FromBytesBound(b[..4]);
      Widths();
    }
  }

  lemma Int64Decoded(b: Bytes)
    ensures DecodeInt64(b).Parsed? ==> -TWO_63 <= DecodeInt64(b).value < TWO_63
  {
    if |b| >= 8 {
      FromBytesBound(b[..8]);
      Widths();
    }
  }

  lemma StringDecoded(b: Bytes)
    ensures DecodeString(b).Parsed? ==> |DecodeString(b).value| < TWO_32
  {
    Int32Decoded(b);
  }

  lemma FileDecoded(b: Bytes)
    ensures DecodeFile(b).Parsed? ==> FileFits(DecodeFile(b).value)
  {
    StringDecoded(b);
    if DecodeString(b).Parsed? {
      Int64Decoded(DecodeString(b).rest);
    }
  }

  lemma {:induction false} ManyDecoded<T>(n: nat, b: Bytes, decode: Bytes -> Parsed<T>, fits: T -> bool)
    requires forall b' :: decode(b').Parsed? ==> fits(decode(b').value)
    ensures DecodeMany(n, b, decode).Parsed? ==>
              && |DecodeMany(n, b, decode).value| == n
              && forall i :: 0 <= i < n ==> fits(DecodeMany(n, b, decode).value[i])
  {
    if n > 0 {
      ManyDecoded(n - 1, b, decode, fits);
    }
  }

  lemma FilesDecoded(n: nat, b: Bytes)
    ensures DecodeFiles(n, b).Parsed? ==>
              && |DecodeFiles(n, b).value| == n
              && forall i :: 0 <= i < n ==> FileFits(DecodeFiles(n, b).value[i])
  {
    forall b'
      ensures DecodeFile(b').Parsed? ==> FileFits(DecodeFile(b').value)
    {
      FileDecoded(b');
    }
    ManyDecoded(n, b, DecodeFile, FileFits);
  }

  lemma ChildDecoded(b: Bytes)
    ensures DecodeChild(b).Parsed? ==> ChildFits(DecodeChild(b).value)
  {
    if DecodeChild(b).Parsed? {
      StringDecoded(b);
      var b1 := DecodeString(b).rest;
      var b2 := DecodeInt32(b1).rest;
      Int64Decoded(b2);
      var b3 := DecodeInt64(b2).rest;
      Int32Decoded(b3);
      FilesDecoded(DecodeInt32(b3).value, DecodeInt32(b3).rest);
    }
  }

  lemma ChildrenDecoded(n: nat, b: Bytes)
    ensures DecodeChildren(n, b).Parsed? ==>
              && |DecodeChildren(n, b).value| == n
              && forall i :: 0 <= i < n ==> ChildFits(DecodeChildren(n, b).value[i])
  {
    forall b'
      ensures DecodeChild(b').Parsed? ==> ChildFits(DecodeChild(b').value)
    {
      ChildDecoded(b');
    }
    ManyDecoded(n, b, DecodeChild, ChildFits);
  }

  /** A listing can be read back from its encoding, whatever follows it, exactly when its counts and lengths fit. */
  lemma DecodeEncodeIff(children: seq<ChildView>, rest: Bytes)
    ensures Decode(Encode(children) + rest) == Parsed(children, rest) <==> Fits(children)
  {
    if Fits(children) {
      assert Encode(children) + rest == Int32(|children|) + (EncodeChildren(children) + rest);
      Int32ReadBack(|children|, EncodeChildren(children) + rest);
      ChildrenReadBack(children, rest);
    }
    var b := Encode(children) + rest;
    if Decode(b) == Parsed(children, rest) {
      Int32Decoded(b);
      ChildrenDecoded(DecodeInt32(b).value, DecodeInt32(b).rest);
    }
  }

  /** Different listings have different encodings, and no encoding is a proper prefix of another. */
  lemma EncodeInjective(a: seq<ChildView>, b: seq<ChildView>, restA: Bytes, restB: Bytes)
    requires Fits(a) && Fits(b)
    ensures Encode(a) + restA == Encode(b) + restB ==> a == b && restA == restB
  {
    DecodeEncodeIff(a, restA);
    DecodeEncodeIff(b, restB);
  }
}
