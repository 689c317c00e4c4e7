/**
 * The extended-attribute block (simplefs_xattr.c, simplefs.h:405-439): one 4096-byte block
 * with an 8-byte header, entries growing up and values growing down.
 */
module Xattr {
  import opened Wrappers

  type byte = x: int | 0 <= x < 256

  type Bytes = seq<byte>

  const BLOCK_SIZE: nat := 4096
  const HEADER_SIZE: nat := 8
  const ENTRY_HEADER: nat := 8
  const MAGIC: nat := 0x5358_4154
  const MAX_COUNT: nat := (BLOCK_SIZE - HEADER_SIZE) / ENTRY_HEADER

  // ---------- little-endian fields ----------

  function U16(b: Bytes, at: nat): nat
    requires at + 2 <= |b|
  {
    b[at] as int + 0x100 * b[at + 1] as int
  }

  function U32(b: Bytes, at: nat): nat
    requires at + 4 <= |b|
  {
    b[at] as int + 0x100 * b[at + 1] as int + 0x1_0000 * b[at + 2] as int + 0x100_0000 * b[at + 3] as int
  }

  function Put16(x: nat): (s: Bytes)
    requires x < 0x1_0000
    ensures |s| == 2 && U16(s, 0) == x
  {
    [x % 0x100, x / 0x100]
  }

  function Put32(x: nat): (s: Bytes)
    requires x < 0x1_0000_0000
    ensures |s| == 4 && U32(s, 0) == x
  {
    Put16(x % 0x1_0000) + Put16(x / 0x1_0000)
  }

  /** SIMPLEFS_XATTR_ENTRY_SIZE: the fixed part and the name, to the next multiple of 4. */
  function EntrySize(nameLen: nat): (n: nat)
    ensures ENTRY_HEADER + nameLen <= n < ENTRY_HEADER + nameLen + 4 && n % 4 == 0
  {
    (ENTRY_HEADER + nameLen + 3) / 4 * 4
  }

  // ---------- what a block says ----------

  datatype Attr = Attr(name: Bytes, value: Bytes)

  type Block = b: Bytes | |b| == BLOCK_SIZE witness seq(BLOCK_SIZE, _ => 0)

  function ValueOffs(b: Block, p: nat): nat
    requires p + ENTRY_HEADER <= BLOCK_SIZE
  {
    U16(b, p + 2)
  }

  function ValueSize(b: Block, p: nat): nat
    requires p + ENTRY_HEADER <= BLOCK_SIZE
  {
    U32(b, p + 4)
  }

  /** The entry at p stays inside the block, name and value. */
  predicate EntryFits(b: Block, p: nat) {
    && p + ENTRY_HEADER <= BLOCK_SIZE && p + EntrySize(b[p]) <= BLOCK_SIZE
    && ValueOffs(b, p) + ValueSize(b, p) <= BLOCK_SIZE
  }

  /** Where the first n entries end; past the block when one of them does not fit. */
  function End(b: Block, n: nat): nat {
    if n == 0 then HEADER_SIZE
    else
      var p := End(b, n - 1);
      if EntryFits(b, p) then p + EntrySize(b[p]) else BLOCK_SIZE + 1
  }

  predicate Fits(b: Block, n: nat) {
    End(b, n) <= BLOCK_SIZE
  }

  /** The lowest value of the first n entries. */
  function ValuesStart(b: Block, n: nat): (v: nat)
    requires Fits(b, n)
  {
    if n == 0 then BLOCK_SIZE
    else
      var v, offs := ValuesStart(b, n - 1), ValueOffs(b, End(b, n - 1));
      if offs < v then offs else v
  }

  function AttrAt(b: Block, p: nat): Attr
    requires EntryFits(b, p)
  {
    Attr(b[p + ENTRY_HEADER..p + ENTRY_HEADER + b[p]], b[ValueOffs(b, p)..ValueOffs(b, p) + ValueSize(b, p)])
  }

  function Attrs(b: Block, n: nat): (s: seq<Attr>)
    requires Fits(b, n)
    ensures |s| == n
  {
    if n == 0 then [] else Attrs(b, n - 1) + [AttrAt(b, End(b, n - 1))]
  }

  function Count(b: Block): nat {
    U32(b, 4)
  }

  predicate Sound(b: Block) {
    && U32(b, 0) == MAGIC && Count(b) <= MAX_COUNT
    && Fits(b, Count(b)) && End(b, Count(b)) <= ValuesStart(b, Count(b))
  }

  /** The attributes in a sound block, in order. */
  function Contents(b: Block): seq<Attr>
    requires Sound(b)
  {
    Attrs(b, Count(b))
  }

  lemma {:induction false} FitsBelow(b: Block, n: nat, i: nat)
    requires Fits(b, n) && i <= n
    ensures Fits(b, i) && End(b, i) <= End(b, n) && (i < n ==> EntryFits(b, End(b, i)) && End(b, i + 1) <= End(b, n))
  {
    if i < n {
      FitsBelow(b, n - 1, i);
    }
  }

  lemma {:induction false} AttrsAt(b: Block, n: nat, i: nat)
    requires Fits(b, n) && i < n
    ensures EntryFits(b, End(b, i)) && Attrs(b, n)[i] == AttrAt(b, End(b, i))
  {
    if i < n - 1 {
      AttrsAt(b, n - 1, i);
    }
  }

  /** One step of a walk over a sound block. */
  lemma WalkStep(b: Block, i: nat)
    requires Sound(b) && i < Count(b)
    ensures |Contents(b)| == Count(b)
    ensures EntryFits(b, End(b, i)) && Contents(b)[i] == AttrAt(b, End(b, i)) && End(b, i + 1) == End(b, i) + EntrySize(b[End(b, i)])
  {
    FitsBelow(b, Count(b), i);
    AttrsAt(b, Count(b), i);
  }

  /** simplefs_xattr_validate */
  method Validate(b: Block) returns (r: Option<Errno>)
    ensures r == if Sound(b) then None else Some(EUCLEAN)
  {
    if U32(b, 0) != MAGIC {
      return Some(EUCLEAN);
    }
    if Count(b) > MAX_COUNT {
      return Some(EUCLEAN);
    }
    var entriesEnd, valuesStart := HEADER_SIZE, BLOCK_SIZE;
    var i := 0;
    while i < Count(b)
      invariant i <= Count(b) && Fits(b, i) && entriesEnd == End(b, i) && valuesStart == ValuesStart(b, i)
    {
      if !EntryFits(b, entriesEnd) {
        assert !Fits(b, i + 1);
        if Fits(b, Count(b)) {
          FitsBelow(b, Count(b), i + 1);
        }
        return Some(EUCLEAN);
      }
      valuesStart := if ValueOffs(b, entriesEnd) < valuesStart then ValueOffs(b, entriesEnd) else valuesStart;
      entriesEnd := entriesEnd + EntrySize(b[entriesEnd]);
      i := i + 1;
    }
    if entriesEnd > valuesStart {
      return Some(EUCLEAN);
    }
    return None;
  }

  // ---------- get and list ----------

  ghost predicate FirstNamed(s: seq<Attr>, name: Bytes, i: nat) {
    i < |s| && s[i].name == name && forall j :: 0 <= j < i ==> s[j].name != name
  }

  ghost predicate Unnamed(s: seq<Attr>, name: Bytes) {
    forall j :: 0 <= j < |s| ==> s[j].name != name
  }

  /** simplefs_xattr_get on a block; no room asks for the size only. */
  method Get(b: Block, name: Bytes, room: Option<nat>) returns (r: Result<Bytes>)
    ensures |name| > 255 ==> r == Err(ERANGE)
    ensures |name| <= 255 && !Sound(b) ==> r == Err(EUCLEAN)
    ensures |name| <= 255 && Sound(b) && Unnamed(Contents(b), name) ==> r == Err(ENODATA)
    ensures |name| <= 255 && Sound(b) ==>
        forall i: nat :: FirstNamed(Contents(b), name, i) ==>
          r == if room.Some? && room.value < |Contents(b)[i].value| then Err(ERANGE) else Ok(Contents(b)[i].value)
  {
    hide Sound, Attrs, U16, U32, EntrySize;
    if |name| > 255 {
      return Err(ERANGE);
    }
    var bad := Validate(b);
    if bad.Some? {
      return Err(EUCLEAN);
    }
    var p := HEADER_SIZE;
    var i := 0;
    while i < Count(b)
      invariant i <= Count(b) == |Contents(b)| && p == End(b, i)
      invariant forall j :: 0 <= j < i ==> Contents(b)[j].name != name
    {
      WalkStep(b, i);
      var len := b[p] as nat;
      if len == |name| && b[p + ENTRY_HEADER..p + ENTRY_HEADER + len] == name {
        var size := ValueSize(b, p);
        assert FirstNamed(Contents(b), name, i);
        if room.Some? && room.value < size {
          return Err(ERANGE);
        }
        return Ok(b[ValueOffs(b, p)..ValueOffs(b, p) + size]);
      }
      p := p + EntrySize(b[p]);
      i := i + 1;
    }
    return Err(ENODATA);
  }

  /** The names, each with a NUL after it. */
  function NameList(s: seq<Attr>): Bytes {
    if s == [] then [] else NameList(s[..|s| - 1]) + s[|s| - 1].name + [0]
  }

  /** What a caller of listxattr reads: the stretches that end in a NUL, the first one behind `cur`. */
  function Pieces(b: Bytes, cur: Bytes): seq<Bytes>
    decreases |b|
  {
    if b == [] then []
    else if b[0] == 0 then [cur] + Pieces(b[1..], [])
    else Pieces(b[1..], cur + [b[0]])
  }

  lemma {:induction false} PiecesOfBoth(x: Bytes, cur: Bytes, y: Bytes)
    requires if x == [] then cur == [] else x[|x| - 1] == 0
    ensures Pieces(x + y, cur) == Pieces(x, cur) + Pieces(y, [])
    decreases |x|
  {
    if x == [] {
      assert x + y == y;
    } else {
      assert (x + y)[0] == x[0] && (x + y)[1..] == x[1..] + y;
      PiecesOfBoth(x[1..], if x[0] == 0 then [] else cur + [x[0]], y);
    }
  }

  lemma {:induction false} PieceOfName(name: Bytes, cur: Bytes)
    requires 0 !in name
    ensures Pieces(name + [0], cur) == [cur + name]
    decreases |name|
  {
    if name == [] {
      var nul: Bytes := [0];
      assert nul[1..] == [] && name + nul == nul && cur + name == cur;
      assert Pieces(nul, cur) == [cur] + Pieces([], []);
    } else {
      assert name[0] in name && (name + [0])[1..] == name[1..] + [0];
      PieceOfName(name[1..], cur + [name[0]]);
      assert cur + [name[0]] + name[1..] == cur + name;
    }
  }

  /** Cutting the list at its NULs gives the names back, in order. */
  lemma {:induction false} NamesComeBack(s: seq<Attr>)
    requires forall i :: 0 <= i < |s| ==> 0 !in s[i].name
    ensures |Pieces(NameList(s), [])| == |s|
    ensures forall i :: 0 <= i < |s| ==> Pieces(NameList(s), [])[i] == s[i].name
    ensures s != [] ==> NameList(s) != [] && NameList(s)[|NameList(s)| - 1] == 0
  {
    if s != [] {
      var n := |s| - 1;
      var x, y := NameList(s[..n]), s[n].name + [0];
      NamesComeBack(s[..n]);
      assert NameList(s) == x + y;
      PiecesOfBoth(x, [], y);
      PieceOfName(s[n].name, []);
      assert [] + s[n].name == s[n].name;
    }
  }

  lemma {:induction false} NameListGrows(s: seq<Attr>, i: nat)
    requires i <= |s|
    ensures |NameList(s[..i])| <= |NameList(s)|
  {
    if i == |s| {
      assert s[..i] == s;
    } else {
      NameListGrows(s[..|s| - 1], i);
      assert s[..|s| - 1][..i] == s[..i];
    }
  }

  /** simplefs_listxattr on a block */
  method List(b: Block, room: Option<nat>) returns (r: Result<Bytes>)
    ensures !Sound(b) ==> r == Err(EUCLEAN)
    ensures Sound(b) ==> r == if room.Some? && room.value < |NameList(Contents(b))| then Err(ERANGE) else Ok(NameList(Contents(b)))
  {
    var bad := Validate(b);
    if bad.Some? {
      return Err(EUCLEAN);
    }
    hide Sound, Attrs, U16, U32, EntrySize;
    ghost var s := Contents(b);
    var out: Bytes := [];
    var p := HEADER_SIZE;
    var i := 0;
    assert s[..0] == [];
    while i < Count(b)
      invariant i <= Count(b) == |s| && p == End(b, i) && out == NameList(s[..i])
      invariant room.Some? ==> |out| <= room.value
    {
      WalkStep(b, i);
      assert s[..i + 1][..i] == s[..i];
      var name := b[p + ENTRY_HEADER..p + ENTRY_HEADER + b[p]];
      assert NameList(s[..i + 1]) == out + name + [0];
      if room.Some? && |out| + b[p] + 1 > room.value {
        NameListGrows(s, i + 1);
        return Err(ERANGE);
      }
      out := out + name + [0];
      p := p + EntrySize(b[p]);
      i := i + 1;
    }
    assert s[..i] == s;
    return Ok(out);
  }

  // ---------- rebuilding a block ----------

  function EntryBytes(s: seq<Attr>): nat {
    if s == [] then 0 else EntryBytes(s[..|s| - 1]) + EntrySize(|s[|s| - 1].name|)
  }

  function ValueBytes(s: seq<Attr>): nat {
    if s == [] then 0 else ValueBytes(s[..|s| - 1]) + |s[|s| - 1].value|
  }

  /** The room a list of attributes takes. */
  function Need(s: seq<Attr>): nat {
    HEADER_SIZE + EntryBytes(s) + ValueBytes(s)
  }

  /** A block that holds exactly this list, entries packed from below and values from above. */
  ghost predicate Built(b: Block, s: seq<Attr>) {
    && U32(b, 0) == MAGIC && Count(b) == |s| && Need(s) <= BLOCK_SIZE
    && End(b, |s|) == HEADER_SIZE + EntryBytes(s) && Attrs(b, |s|) == s
    && ValuesStart(b, |s|) == BLOCK_SIZE - ValueBytes(s)
  }

  lemma {:induction false} EntryBytesAtLeast(s: seq<Attr>)
    ensures EntryBytes(s) >= ENTRY_HEADER * |s|
  {
    if s != [] {
      EntryBytesAtLeast(s[..|s| - 1]);
    }
  }

  lemma BuiltIsSound(b: Block, s: seq<Attr>)
    requires Built(b, s)
    ensures Sound(b) && Contents(b) == s
  {
    EntryBytesAtLeast(s);
  }

  function Patch(b: Bytes, at: nat, s: Bytes): (b': Bytes)
    requires at + |s| <= |b|
    ensures |b'| == |b|
    ensures forall k :: 0 <= k < |b| ==> b'[k] == if at <= k < at + |s| then s[k - at] else b[k]
  {
    b[..at] + s + b[at + |s|..]
  }

  ghost predicate Agree(b: Block, b': Block, lo: nat, hi: nat) {
    forall k :: lo <= k < hi && k < BLOCK_SIZE ==> b'[k] == b[k]
  }

  /** Whatever is written between the entries and the values changes no attribute. */
  lemma {:induction false} GapWrites(b: Block, b': Block, n: nat, e: nat, v: nat)
    requires Fits(b, n) && End(b, n) <= e && v <= ValuesStart(b, n)
    requires Agree(b, b', HEADER_SIZE, e) && Agree(b, b', v, BLOCK_SIZE)
    ensures End(b', n) == End(b, n) && Attrs(b', n) == Attrs(b, n) && ValuesStart(b', n) == ValuesStart(b, n)
  {
    if n > 0 {
      GapWrites(b, b', n - 1, e, v);
      StartsAfterHeader(b, n - 1);
      SameEntry(b, b', End(b, n - 1), v);
    }
  }

  lemma {:induction false} StartsAfterHeader(b: Block, n: nat)
    ensures End(b, n) >= HEADER_SIZE
  {
    if n > 0 {
      StartsAfterHeader(b, n - 1);
    }
  }

  lemma SameEntry(b: Block, b': Block, p: nat, v: nat)
    requires EntryFits(b, p) && v <= ValueOffs(b, p)
    requires Agree(b, b', p, p + EntrySize(b[p])) && Agree(b, b', v, BLOCK_SIZE)
    ensures EntryFits(b', p) && AttrAt(b', p) == AttrAt(b, p) && b'[p] == b[p] && ValueOffs(b', p) == ValueOffs(b, p)
  {
    assert forall k :: p <= k < p + ENTRY_HEADER + b[p] ==> b'[k] == b[k];
    var offs, size := ValueOffs(b, p), ValueSize(b, p);
    assert ValueOffs(b', p) == offs && ValueSize(b', p) == size;
    assert forall k :: offs <= k < offs + size ==> b'[k] == b[k];
    assert b'[offs..offs + size] == b[offs..offs + size];
  }

  /** The bytes of an entry: length, unused index, value offset, value size, name. */
  function EntryImage(name: Bytes, offs: nat, size: nat): (s: Bytes)
    requires |name| < 256 && offs < 0x1_0000 && size < 0x1_0000_0000
    ensures |s| == ENTRY_HEADER + |name|
  {
    [|name|, 0] + Put16(offs) + Put32(size) + name
  }

  lemma EntryReadsBack(b: Block, p: nat, name: Bytes, value: Bytes, offs: nat)
    requires |name| < 256 && p + EntrySize(|name|) <= BLOCK_SIZE && offs + |value| <= BLOCK_SIZE
    requires b[p..p + ENTRY_HEADER + |name|] == EntryImage(name, offs, |value|)
    requires b[offs..offs + |value|] == value
    ensures b[p] == |name| && EntryFits(b, p) && ValueOffs(b, p) == offs && AttrAt(b, p) == Attr(name, value)
  {
    var image := EntryImage(name, offs, |value|);
    assert forall k :: 0 <= k < |image| ==> b[p + k] == image[k];
    assert b[p + 2] == Put16(offs)[0] && b[p + 3] == Put16(offs)[1];
    var size := Put32(|value|);
    assert b[p + 4] == size[0] && b[p + 5] == size[1] && b[p + 6] == size[2] && b[p + 7] == size[3];
    assert b[p + ENTRY_HEADER..p + ENTRY_HEADER + |name|] == name;
  }

  /** The block after one more attribute: its entry, its value, and the count. */
  ghost function Appended(b: Block, s: seq<Attr>, a: Attr): Block
    requires |s| < MAX_COUNT && |a.name| < 256 && Need(s) + EntrySize(|a.name|) + |a.value| <= BLOCK_SIZE
  {
    var e, v := HEADER_SIZE + EntryBytes(s), BLOCK_SIZE - ValueBytes(s) - |a.value|;
    Patch(Patch(Patch(b, e, EntryImage(a.name, v, |a.value|)), v, a.value), 4, Put32(|s| + 1))
  }

  /** The three writes, byte by byte. */
  lemma ThreeWrites(b: Block, e: nat, image: Bytes, v: nat, value: Bytes, count: Bytes)
    requires HEADER_SIZE <= e && e + |image| <= v && v + |value| <= BLOCK_SIZE && |count| == 4
    ensures var b': Block := Patch(Patch(Patch(b, e, image), v, value), 4, count);
      && b'[e..e + |image|] == image && b'[v..v + |value|] == value && b'[4..8] == count && b'[..4] == b[..4]
      && Agree(b, b', HEADER_SIZE, e) && Agree(b, b', v + |value|, BLOCK_SIZE)
  {
  }

  lemma AppendedIsBuilt(b: Block, s: seq<Attr>, a: Attr)
    requires Built(b, s) && |a.name| < 256 && Need(s) + EntrySize(|a.name|) + |a.value| <= BLOCK_SIZE
    requires |s| < MAX_COUNT
    ensures Built(Appended(b, s, a), s + [a])
  {
    hide Attrs, End, ValuesStart, EntryBytes, ValueBytes, EntryImage, Put16, Put32, EntrySize, Patch, Agree, U32, U16,
      EntryFits, AttrAt, ValueOffs, ValueSize;
    var n := |s|;
    var e, v := HEADER_SIZE + EntryBytes(s), BLOCK_SIZE - ValueBytes(s) - |a.value|;
    var image := EntryImage(a.name, v, |a.value|);
    var b' := Appended(b, s, a);
    EntrySizeCovers(|a.name|);
    ThreeWrites(b, e, image, v, a.value, Put32(n + 1));
    GapWrites(b, b', n, e, v + |a.value|);
    EntryReadsBack(b', e, a.name, a.value, v);
    OneMoreEnds(b', n);
    OneMoreAttr(b', n);
    OneMoreValue(b', n);
    SumsSnoc(s, a);
    HeaderOf(b, b', n + 1);
  }

  lemma HeaderOf(b: Block, b': Block, n: nat)
    requires n < 0x1_0000_0000 && b'[4..8] == Put32(n) && b'[..4] == b[..4]
    ensures Count(b') == n && U32(b', 0) == U32(b, 0)
  {
    hide Put32;
    CountBytes(n);
    var c := Put32(n);
    assert b'[4] == b'[4..8][0] && b'[5] == b'[4..8][1] && b'[6] == b'[4..8][2] && b'[7] == b'[4..8][3];
    assert b'[0] == b'[..4][0] && b'[1] == b'[..4][1] && b'[2] == b'[..4][2] && b'[3] == b'[..4][3];
    assert b[0] == b[..4][0] && b[1] == b[..4][1] && b[2] == b[..4][2] && b[3] == b[..4][3];
  }

  lemma EntrySizeCovers(n: nat)
    ensures EntrySize(n) >= ENTRY_HEADER + n
  {
  }

  lemma CountBytes(n: nat)
    requires n < 0x1_0000_0000
    ensures |Put32(n)| == 4 && U32(Put32(n), 0) == n
  {
  }

  lemma OneMoreEnds(b: Block, n: nat)
    requires Fits(b, n) && EntryFits(b, End(b, n))
    ensures End(b, n + 1) == End(b, n) + EntrySize(b[End(b, n)]) && Fits(b, n + 1)
  {
  }

  lemma OneMoreAttr(b: Block, n: nat)
    requires Fits(b, n) && Fits(b, n + 1) && EntryFits(b, End(b, n))
    ensures Attrs(b, n + 1) == Attrs(b, n) + [AttrAt(b, End(b, n))]
  {
  }

  lemma OneMoreValue(b: Block, n: nat)
    requires Fits(b, n) && Fits(b, n + 1) && EntryFits(b, End(b, n))
    ensures ValuesStart(b, n + 1) == if ValueOffs(b, End(b, n)) < ValuesStart(b, n) then ValueOffs(b, End(b, n)) else ValuesStart(b, n)
  {
  }

  lemma SumsSnoc(s: seq<Attr>, a: Attr)
    ensures EntryBytes(s + [a]) == EntryBytes(s) + EntrySize(|a.name|)
    ensures ValueBytes(s + [a]) == ValueBytes(s) + |a.value|
  {
    assert (s + [a])[..|s|] == s;
  }

  /** memcpy into a buffer */
  method WriteBytes(buffer: array<byte>, at: nat, s: Bytes)
    requires at + |s| <= buffer.Length
    modifies buffer
    ensures buffer[..] == Patch(old(buffer[..]), at, s)
  {
    var i := 0;
    while i < |s|
      invariant i <= |s|
      invariant forall k :: 0 <= k < buffer.Length ==> buffer[k] == if at <= k < at + i then s[k - at] else old(buffer[k])
    {
      buffer[at + i] := s[i];
      i := i + 1;
    }
  }

  /** One attribute into the block being rebuilt, if it fits between the entries and the values. */
  method AppendEntry(tmp: array<byte>, e: nat, v: nat, name: Bytes, value: Bytes, ghost s: seq<Attr>) returns (ok: bool, e': nat, v': nat)
    requires tmp.Length == BLOCK_SIZE && Built(tmp[..], s) && |name| < 256
    requires e == HEADER_SIZE + EntryBytes(s) && v == BLOCK_SIZE - ValueBytes(s)
    modifies tmp
    ensures ok <==> Need(s + [Attr(name, value)]) <= BLOCK_SIZE
    ensures ok ==> Built(tmp[..], s + [Attr(name, value)])
    ensures ok ==> e' == HEADER_SIZE + EntryBytes(s + [Attr(name, value)]) && v' == BLOCK_SIZE - ValueBytes(s + [Attr(name, value)])
  {
    hide Attrs, End, ValuesStart, EntryBytes, ValueBytes, EntryImage, Put16, Put32, EntrySize, Built, U32, Patch;
    ghost var a := Attr(name, value);
    BuiltFits(tmp[..], s);
    SumsSnoc(s, a);
    var size := EntrySize(|name|);
    if |value| > v || e + size > v - |value| {
      return false, e, v;
    }
    EntrySizeCovers(|name|);
    RoomForOne(s, a);
    ghost var before := tmp[..];
    v' := v - |value|;
    WriteBytes(tmp, e, EntryImage(name, v', |value|));
    WriteBytes(tmp, v', value);
    e' := e + size;
    var count := U32(tmp[..], 4);
    CountUntouched(before, s, a, tmp[..]);
    WriteBytes(tmp, 4, Put32(count + 1));
    AppendedIsBuilt(before, s, a);
    assert tmp[..] == Appended(before, s, a);
    return true, e', v';
  }

  lemma CountUntouched(b: Block, s: seq<Attr>, a: Attr, b': Block)
    requires Built(b, s) && |a.name| < 256 && Need(s) + EntrySize(|a.name|) + |a.value| <= BLOCK_SIZE
    requires var e, v := HEADER_SIZE + EntryBytes(s), BLOCK_SIZE - ValueBytes(s) - |a.value|;
      b' == Patch(Patch(b, e, EntryImage(a.name, v, |a.value|)), v, a.value)
    ensures U32(b', 4) == |s|
  {
    hide Attrs, End, ValuesStart, EntryBytes, ValueBytes, EntryImage, Put16, Put32;
    assert forall k :: 4 <= k < 8 ==> b'[k] == b[k];
  }

  /** A list that fits has fewer entries than the header check allows. */
  lemma RoomForOne(s: seq<Attr>, a: Attr)
    requires Need(s) + EntrySize(|a.name|) + |a.value| <= BLOCK_SIZE
    ensures |s| < MAX_COUNT
  {
    EntryBytesAtLeast(s);
  }

  // ---------- set ----------

  /** The last attribute of the name, or -1. */
  function LastIndex(s: seq<Attr>, name: Bytes): (i: int)
    ensures -1 <= i < |s| && (i >= 0 ==> s[i].name == name) && forall j :: i < j < |s| ==> s[j].name != name
  {
    if s == [] then -1
    else if s[|s| - 1].name == name then |s| - 1
    else LastIndex(s[..|s| - 1], name)
  }

  function Without(s: seq<Attr>, found: int): seq<Attr>
    requires found < |s|
  {
    if found < 0 then s else s[..found] + s[found + 1..]
  }

  /** The list a set leaves: the old one of the name dropped, the new one at the end. */
  function Updated(s: seq<Attr>, name: Bytes, value: Option<Bytes>): seq<Attr> {
    Without(s, LastIndex(s, name)) + if value.Some? then [Attr(name, value.value)] else []
  }

  lemma {:induction false} NeedGrows(s: seq<Attr>, i: nat)
    requires i <= |s|
    ensures Need(s[..i]) <= Need(s)
  {
    if i == |s| {
      assert s[..i] == s;
    } else {
      NeedGrows(s[..|s| - 1], i);
      assert s[..|s| - 1][..i] == s[..i];
    }
  }

  function EmptyBlock(): (b: Block)
  {
    Patch(Patch(seq(BLOCK_SIZE, _ => 0), 0, Put32(MAGIC)), 4, Put32(0))
  }

  lemma EmptyIsBuilt()
    ensures Built(EmptyBlock(), [])
  {
    var m, c := Put32(MAGIC), Put32(0);
    var b := EmptyBlock();
    assert b[0] == m[0] && b[1] == m[1] && b[2] == m[2] && b[3] == m[3];
    assert b[4] == c[0] && b[5] == c[1] && b[6] == c[2] && b[7] == c[3];
  }

  /** kzalloc of a block and a header without entries */
  method NewBlock() returns (block: array<byte>)
    ensures fresh(block) && block.Length == BLOCK_SIZE && block[..] == EmptyBlock()
  {
    block := new byte[BLOCK_SIZE](_ => 0);
    assert block[..] == seq(BLOCK_SIZE, _ => 0);
    WriteBytes(block, 0, Put32(MAGIC));
    WriteBytes(block, 4, Put32(0));
  }

  /** The scan for an existing entry of the name. */
  method FindLast(b: Block, name: Bytes) returns (found: int)
    requires Sound(b)
    ensures found == LastIndex(Contents(b), name)
  {
    hide Sound, Attrs, U16, U32, EntrySize;
    ghost var s := Contents(b);
    var p := HEADER_SIZE;
    var i := 0;
    found := -1;
    ContentsLength(b);
    while i < Count(b)
      invariant i <= Count(b) == |s| && p == End(b, i) && found == LastIndex(s[..i], name)
    {
      WalkStep(b, i);
      assert s[..i + 1][..i] == s[..i];
      var len := b[p] as nat;
      if len == |name| && b[p + ENTRY_HEADER..p + ENTRY_HEADER + len] == name {
        found := i;
      }
      p := p + EntrySize(b[p]);
      i := i + 1;
    }
    assert s[..i] == s;
  }

  lemma ContentsLength(b: Block)
    requires Sound(b)
    ensures |Contents(b)| == Count(b)
  {
  }

  /** The first j attributes, without the replaced one. */
  ghost function Kept(s: seq<Attr>, found: int, j: nat): seq<Attr>
    requires found < |s| && j <= |s|
  {
    if 0 <= found < j then s[..found] + s[found + 1..j] else s[..j]
  }

  lemma KeptStep(s: seq<Attr>, found: int, j: nat)
    requires found < |s| && j < |s|
    ensures Kept(s, found, j + 1) == if j == found then Kept(s, found, j) else Kept(s, found, j) + [s[j]]
    ensures Need(Kept(s, found, j + 1)) <= Need(Without(s, found))
  {
    assert s[..j + 1] == s[..j] + [s[j]];
    var done := Kept(s, found, j + 1);
    assert Without(s, found)[..|done|] == done;
    NeedGrows(Without(s, found), |done|);
  }

  /** What AppendEntry works on: the list so far and the two boundaries. */
  ghost predicate Packed(b: Bytes, s: seq<Attr>, e: nat, v: nat) {
    |b| == BLOCK_SIZE && Built(b, s) && e == HEADER_SIZE + EntryBytes(s) && v == BLOCK_SIZE - ValueBytes(s)
  }

  /** An entry of the old block, name and value, into the new one. */
  method CopyEntry(b: Block, src: nat, tmp: array<byte>, e: nat, v: nat, ghost s: seq<Attr>) returns (ok: bool, e': nat, v': nat)
    requires EntryFits(b, src) && tmp.Length == BLOCK_SIZE && Packed(tmp[..], s, e, v)
    modifies tmp
    ensures ok <==> Need(s + [AttrAt(b, src)]) <= BLOCK_SIZE
    ensures ok ==> Packed(tmp[..], s + [AttrAt(b, src)], e', v')
  {
    hide Attrs, U16, U32, EntrySize, Built, Need, EntryBytes, ValueBytes;
    ok, e', v' := AppendEntry(tmp, e, v, b[src + ENTRY_HEADER..src + ENTRY_HEADER + b[src]],
                              b[ValueOffs(b, src)..ValueOffs(b, src) + ValueSize(b, src)], s);
  }

  /** The rebuild in a temporary block: out of space exactly when the new list does not fit. */
  method Rebuild(b: Block, found: int, name: Bytes, value: Option<Bytes>) returns (ok: bool, tmp: array<byte>)
    requires Sound(b) && |name| < 256 && found == LastIndex(Contents(b), name)
    ensures fresh(tmp) && tmp.Length == BLOCK_SIZE
    ensures ok <==> Need(Updated(Contents(b), name, value)) <= BLOCK_SIZE
    ensures ok ==> Built(tmp[..], Updated(Contents(b), name, value))
  {
    hide Sound, Attrs, U16, U32, EntrySize, Packed, Need, EntryBytes, ValueBytes, EmptyBlock, Kept, Without, AttrAt;
    ghost var s := Contents(b);
    tmp := NewBlock();
    var e, v := HEADER_SIZE, BLOCK_SIZE;
    NothingPacked(s, found);
    ContentsLength(b);
    NeedSuffix(Without(s, found), name, value);
    var src := HEADER_SIZE;
    var j := 0;
    while j < Count(b)
      invariant j <= Count(b) == |s| && src == End(b, j) && tmp.Length == BLOCK_SIZE && fresh(tmp)
      invariant Packed(tmp[..], Kept(s, found, j), e, v)
    {
      WalkStep(b, j);
      KeptStep(s, found, j);
      if j != found {
        ok, e, v := CopyEntry(b, src, tmp, e, v, Kept(s, found, j));
        if !ok {
          return;
        }
      }
      src := src + EntrySize(b[src]);
      j := j + 1;
    }
    AllKept(s, found);
    ok := AddNew(tmp, e, v, Without(s, found), name, value);
  }

  method AddNew(tmp: array<byte>, e: nat, v: nat, ghost kept: seq<Attr>, name: Bytes, value: Option<Bytes>) returns (ok: bool)
    requires tmp.Length == BLOCK_SIZE && Packed(tmp[..], kept, e, v) && |name| < 256
    modifies tmp
    ensures var after := kept + if value.Some? then [Attr(name, value.value)] else [];
      (ok <==> Need(after) <= BLOCK_SIZE) && (ok ==> Built(tmp[..], after))
  {
    hide Built, Need, EntryBytes, ValueBytes;
    BuiltFits(tmp[..], kept);
    assert kept + [] == kept;
    ok := true;
    if value.Some? {
      var e', v';
      ok, e', v' := AppendEntry(tmp, e, v, name, value.value, kept);
    }
  }

  lemma NothingPacked(s: seq<Attr>, found: int)
    requires found < |s|
    ensures Packed(EmptyBlock(), Kept(s, found, 0), HEADER_SIZE, BLOCK_SIZE)
  {
    EmptyIsBuilt();
    assert Kept(s, found, 0) == [];
  }

  lemma AllKept(s: seq<Attr>, found: int)
    requires found < |s|
    ensures Kept(s, found, |s|) == Without(s, found)
  {
  }

  lemma BuiltFits(b: Block, s: seq<Attr>)
    requires Built(b, s)
    ensures Need(s) <= BLOCK_SIZE
  {
  }

  lemma NeedSuffix(kept: seq<Attr>, name: Bytes, value: Option<Bytes>)
    ensures var more := if value.Some? then [Attr(name, value.value)] else [];
      Need(kept) <= Need(kept + more) && (value.None? ==> kept + more == kept)
  {
    var more := if value.Some? then [Attr(name, value.value)] else [];
    assert (kept + more)[..|kept|] == kept;
    NeedGrows(kept + more, |kept|);
  }

  // ---------- the block as a map ----------

  ghost predicate DistinctNames(s: seq<Attr>) {
    forall i, j :: 0 <= i < j < |s| ==> s[i].name != s[j].name
  }

  ghost function MapOf(s: seq<Attr>): map<Bytes, Bytes> {
    if s == [] then map[] else MapOf(s[..|s| - 1])[s[|s| - 1].name := s[|s| - 1].value]
  }

  lemma {:induction false} MapOfHas(s: seq<Attr>, i: nat)
    requires DistinctNames(s) && i < |s|
    ensures s[i].name in MapOf(s) && MapOf(s)[s[i].name] == s[i].value
  {
    if i < |s| - 1 {
      MapOfHas(s[..|s| - 1], i);
    }
  }

  lemma {:induction false} MapOfOnly(s: seq<Attr>, name: Bytes) returns (i: nat)
    requires name in MapOf(s)
    ensures i < |s| && s[i].name == name
  {
    if s[|s| - 1].name == name {
      i := |s| - 1;
    } else {
      i := MapOfOnly(s[..|s| - 1], name);
    }
  }

  lemma NothingMapped()
    ensures MapOf([]) == map[]
  {
  }

  /** Reading the first match is looking the name up. */
  lemma GetIsLookup(s: seq<Attr>, name: Bytes)
    requires DistinctNames(s)
    ensures name !in MapOf(s) <==> Unnamed(s, name)
    ensures name in MapOf(s) ==> exists i: nat :: FirstNamed(s, name, i) && s[i].value == MapOf(s)[name]
  {
    if name in MapOf(s) {
      var i := MapOfOnly(s, name);
      MapOfHas(s, i);
      assert FirstNamed(s, name, i);
    } else {
      forall j | 0 <= j < |s| ensures s[j].name != name {
        MapOfHas(s, j);
      }
    }
  }

  /** Where each attribute of the updated list comes from. */
  lemma UpdatedAt(s: seq<Attr>, name: Bytes, value: Option<Bytes>, j: nat)
    requires DistinctNames(s) && j < |Updated(s, name, value)|
    ensures var u := Updated(s, name, value);
      var found := LastIndex(s, name);
      && (j < |Without(s, found)| ==>
            && u[j] == s[if found < 0 || j < found then j else j + 1]
            && u[j].name != name)
      && (j >= |Without(s, found)| ==> value.Some? && u[j] == Attr(name, value.value))
  {
  }

  /** Names stay distinct, and setting is a map update or a removal. */
  lemma UpdatedIsMapUpdate(s: seq<Attr>, name: Bytes, value: Option<Bytes>)
    requires DistinctNames(s)
    ensures DistinctNames(Updated(s, name, value))
    ensures MapOf(Updated(s, name, value)) == if value.Some? then MapOf(s)[name := value.value] else MapOf(s) - {name}
  {
    hide Updated, MapOf, Without, LastIndex;
    var u := Updated(s, name, value);
    UpdatedDistinct(s, name, value);
    var m := if value.Some? then MapOf(s)[name := value.value] else MapOf(s) - {name};
    forall n | n in MapOf(u) ensures n in m && m[n] == MapOf(u)[n] {
      var j := MapOfOnly(u, n);
      MapOfHas(u, j);
      UpdatedFrom(s, name, value, j);
    }
    forall n | n in m ensures n in MapOf(u) {
      UpdatedTo(s, name, value, n);
    }
  }

  lemma UpdatedDistinct(s: seq<Attr>, name: Bytes, value: Option<Bytes>)
    requires DistinctNames(s)
    ensures DistinctNames(Updated(s, name, value))
  {
    var u := Updated(s, name, value);
    forall i, j | 0 <= i < j < |u| ensures u[i].name != u[j].name {
      UpdatedAt(s, name, value, i);
      UpdatedAt(s, name, value, j);
    }
  }

  lemma UpdatedFrom(s: seq<Attr>, name: Bytes, value: Option<Bytes>, j: nat)
    requires DistinctNames(s) && j < |Updated(s, name, value)|
    ensures var a := Updated(s, name, value)[j];
      if a.name == name then value == Some(a.value) else a.name in MapOf(s) && MapOf(s)[a.name] == a.value
  {
    hide MapOf;
    UpdatedAt(s, name, value, j);
    var found := LastIndex(s, name);
    if j < |Without(s, found)| {
      MapOfHas(s, if found < 0 || j < found then j else j + 1);
    }
  }

  /** Where an attribute of another name ends up. */
  lemma KeptAt(s: seq<Attr>, name: Bytes, value: Option<Bytes>, i: nat)
    requires i < |s| && s[i].name != name
    ensures var found := LastIndex(s, name);
      var j := if found < 0 || i < found then i else i - 1;
      0 <= j < |Updated(s, name, value)| && Updated(s, name, value)[j] == s[i]
  {
    KeptWithout(s, LastIndex(s, name), i);
    hide LastIndex, Without;
  }

  lemma KeptWithout(s: seq<Attr>, found: int, i: nat)
    requires i < |s| && found < |s| && found != i
    ensures var j := if found < 0 || i < found then i else i - 1;
      0 <= j < |Without(s, found)| && Without(s, found)[j] == s[i]
  {
  }

  lemma UpdatedTo(s: seq<Attr>, name: Bytes, value: Option<Bytes>, n: Bytes)
    requires DistinctNames(s) && (if n == name then value.Some? else n in MapOf(s))
    ensures n in MapOf(Updated(s, name, value))
  {
    hide MapOf, Without, DistinctNames;
    UpdatedDistinct(s, name, value);
    var u := Updated(s, name, value);
    if n == name {
      MapOfHas(u, |u| - 1);
    } else {
      var i := MapOfOnly(s, n);
      KeptAt(s, name, value, i);
      var found := LastIndex(s, name);
      MapOfHas(u, if found < 0 || i < found then i else i - 1);
    }
  }

  /** A first set that gets its block and then fails: REPLACE, a value too large, or the journal. */
  ghost predicate FirstRefused(name: Bytes, value: Option<Bytes>, replace: bool, gotBlock: bool, persisted: bool) {
    && |name| <= 255 && value.Some? && gotBlock
    && (replace || HEADER_SIZE + EntrySize(|name|) + |value.value| > BLOCK_SIZE || !persisted)
  }

  lemma FirstSetFails(name: Bytes, value: Option<Bytes>, create: bool, replace: bool, gotBlock: bool, persisted: bool)
    requires value.Some? && |name| <= 255 && gotBlock
    ensures FirstRefused(name, value, replace, gotBlock, persisted) <==>
      SetError([], name, value, create, replace) != None || !persisted
  {
    var a := Attr(name, value.value);
    assert LastIndex([], name) == -1 && Updated([], name, value) == [] + [a] == [a];
    SumsSnoc([], a);
    assert EntryBytes([]) == 0 && ValueBytes([]) == 0;
  }

  /** What a refused first set leaves on the device need not validate: zeros do not. */
  lemma ZerosDoNotValidate()
    ensures !Sound(seq(BLOCK_SIZE, _ => 0))
  {
    var b: Block := seq(BLOCK_SIZE, _ => 0);
    assert U32(b, 0) == 0;
  }

  /** An inode's attribute block, once it has one. */
  class XattrInode {
    var hasBlock: bool
    /** The cached page. */
    const block: array<byte>
    /** What is read once the page has been dropped: the last content handed to the journal. */
    var stored: Block

    constructor (stored: Block)
      ensures !hasBlock && fresh(block) && block.Length == BLOCK_SIZE
    {
      hasBlock := false;
      block := new byte[BLOCK_SIZE](_ => 0);
      this.stored := stored;
    }

    /** A block, if there is one, passes validation when it is read back. */
    ghost predicate Lasting()
      reads this
    {
      hasBlock ==> Sound(stored)
    }

    /** The page holds what would be read back. */
    ghost predicate Synced()
      reads this, block
    {
      hasBlock ==> stored == block[..]
    }

    /** No block yet, or one that passes validation. */
    ghost predicate Readable()
      reads this, block
    {
      block.Length == BLOCK_SIZE && (hasBlock ==> Sound(block[..]))
    }

    ghost function List(): seq<Attr>
      reads this, block
      requires Readable()
    {
      if hasBlock then Contents(block[..]) else []
    }

    /** What every block that Set has written satisfies. */
    ghost predicate Valid()
      reads this, block
    {
      Readable() && DistinctNames(List())
    }

    /** The map the block stands for. */
    ghost function Map(): map<Bytes, Bytes>
      reads this, block
      requires Valid()
    {
      MapOf(List())
    }

    /**
     * simplefs_xattr_set: no value removes; `gotBlock` is whether a first block can be had.
     * A full block, a wrong flag or a damaged block leaves every byte alone. When the journal
     * refuses the rebuilt block (`persisted` is false) the cached block already holds it.
     * `leftover` is what the device has in the block a first set gets.
     */
    method Set(name: Bytes, value: Option<Bytes>, create: bool, replace: bool, gotBlock: bool, persisted: bool, leftover: Block)
        returns (r: Option<Errno>)
      requires block.Length == BLOCK_SIZE
      modifies this, block
      ensures r != None && r != Some(EIO) && old(hasBlock) ==> hasBlock && block[..] == old(block[..])
      ensures r == Some(EIO) ==> !persisted
      ensures |name| > 255 ==> r == Some(ERANGE) && hasBlock == old(hasBlock)
      ensures |name| <= 255 && old(hasBlock) && !Sound(old(block[..])) ==> r == Some(EUCLEAN)
      ensures |name| <= 255 && old(Readable()) && !old(hasBlock) && value.None? ==>
          r == (if replace then Some(ENODATA) else None) && !hasBlock
      ensures |name| <= 255 && old(Readable()) && !old(hasBlock) && value.Some? && !gotBlock ==> r == Some(ENOSPC) && !hasBlock
      ensures |name| <= 255 && old(Readable()) && (old(hasBlock) || (value.Some? && gotBlock)) ==>
          && hasBlock && Readable()
          && r == (if SetError(old(List()), name, value, create, replace) == None && !persisted then Some(EIO)
                   else SetError(old(List()), name, value, create, replace))
          && List() == if r == None || r == Some(EIO) then Updated(old(List()), name, value) else old(List())
      ensures old(Valid()) ==> Valid()
      ensures old(Valid()) && (r == None || r == Some(EIO)) ==>
          Map() == if value.Some? then old(Map())[name := value.value] else old(Map()) - {name}
      // The new block is named by the inode before anything was written to it.
      ensures !old(hasBlock) && FirstRefused(name, value, replace, gotBlock, persisted) ==> hasBlock && stored == leftover
      ensures old(Readable()) && old(Lasting()) ==>
          (Lasting() <==> old(hasBlock) || !FirstRefused(name, value, replace, gotBlock, persisted) || Sound(leftover))
      ensures old(Readable()) && old(Synced()) && r != Some(EIO) && (old(hasBlock) || r == None) ==> Synced()
    {
      hide Sound, Attrs, U16, U32, Need, Built, Updated, LastIndex, EmptyBlock, DistinctNames, MapOf;
      if old(Valid()) {
        UpdatedIsMapUpdate(List(), name, value);
        NothingMapped();
      }
      if |name| > 255 {
        return Some(ERANGE);
      }
      if !hasBlock && value.None? {
        return if replace then Some(ENODATA) else None;
      }
      if !hasBlock {
        if !gotBlock {
          return Some(ENOSPC);
        }
        var zeroed := NewBlock();
        CopyBlock(zeroed, block);
        hasBlock := true;
        stored := leftover;
        FirstSetFails(name, value, create, replace, gotBlock, persisted);
        EmptyIsBuilt();
        BuiltIsSound(block[..], []);
      } else {
        var bad := Validate(block[..]);
        if bad.Some? {
          return Some(EUCLEAN);
        }
      }
      var found := FindLast(block[..], name);
      FoundMeansNamed(Contents(block[..]), name);
      if found >= 0 && create {
        return Some(EEXIST);
      }
      if found < 0 && replace {
        return Some(ENODATA);
      }
      var ok, tmp := Rebuild(block[..], found, name, value);
      if !ok {
        return Some(ENOSPC);
      }
      BuiltIsSound(tmp[..], Updated(Contents(block[..]), name, value));
      CopyBlock(tmp, block);
      if !persisted {
        return Some(EIO);
      }
      stored := block[..];
      return None;
    }
  }

  /**
   * On distinct names, which every set keeps, a set is the map operation: CREATE refuses a
   * name that is there, REPLACE one that is not, and otherwise only space can be in the way.
   */
  lemma SetRefinesMap(s: seq<Attr>, name: Bytes, value: Option<Bytes>, create: bool, replace: bool)
    requires DistinctNames(s)
    ensures var r := SetError(s, name, value, create, replace);
      && (r == Some(EEXIST) <==> create && name in MapOf(s))
      && (r == Some(ENODATA) <==> replace && name !in MapOf(s))
      && (r == Some(ENOSPC) <==>
            && !(create && name in MapOf(s)) && !(replace && name !in MapOf(s))
            && HEADER_SIZE + EntryBytes(Updated(s, name, value)) + ValueBytes(Updated(s, name, value)) > BLOCK_SIZE)
      && (r == None ==>
            && DistinctNames(Updated(s, name, value))
            && MapOf(Updated(s, name, value)) == if value.Some? then MapOf(s)[name := value.value] else MapOf(s) - {name})
  {
    hide Updated, LastIndex, DistinctNames, MapOf, EntryBytes, ValueBytes, Unnamed, FirstNamed;
    UpdatedIsMapUpdate(s, name, value);
    GetIsLookup(s, name);
  }

  method CopyBlock(from: array<byte>, to: array<byte>)
    requires from.Length == to.Length && from != to
    modifies to
    ensures to[..] == from[..]
  {
    var i := 0;
    while i < from.Length
      invariant i <= from.Length && to[..i] == from[..i]
    {
      to[i] := from[i];
      i := i + 1;
    }
    assert to[..] == to[..i] && from[..] == from[..i];
  }

  /** The flag checks and then the space check, in that order. */
  ghost function SetError(s: seq<Attr>, name: Bytes, value: Option<Bytes>, create: bool, replace: bool): Option<Errno> {
    if !Unnamed(s, name) && create then Some(EEXIST)
    else if Unnamed(s, name) && replace then Some(ENODATA)
    else if Need(Updated(s, name, value)) > BLOCK_SIZE then Some(ENOSPC)
    else None
  }

  lemma FoundMeansNamed(s: seq<Attr>, name: Bytes)
    ensures LastIndex(s, name) >= 0 <==> !Unnamed(s, name)
  {
  }
}
