/** Encoded CBOR data items: the header format and item grammar of section 3 of RFC 8949, as far
    as the repository's walkers enforce it. Two rules they leave to later decoding are not part
    of the grammar: the chunks of an indefinite-length string may be any items, and an
    indefinite-length map may hold an odd number of them. */
module Cbor {
  import opened Numbers

  const BREAK: byte := 0xff

  // ----- headers

  /** A header: major type, low five bits, argument and encoded size. */
  datatype Head = Head(major: nat, info: nat, arg: nat, size: nat)
  {
    predicate Indefinite() { info == 31 && major != 7 }
    predicate IsBreak() { info == 31 && major == 7 }

    predicate Valid() {
      && major < 8
      && if info < 24 then arg == info && size == 1
         else if info < 28 then size == 1 + ArgumentSize(info) && arg < Pow256(size - 1)
         else info == 31 && arg == 0 && size == 1 && 2 <= major <= 5
    }
  }

  datatype HeadResult = Short | Bad | Got(head: Head)

  function ArgumentSize(info: nat): nat
    requires 24 <= info < 28
  {
    if info == 24 then 1 else if info == 25 then 2 else if info == 26 then 4 else 8
  }

  function ReadHead(data: seq<byte>, pos: nat): (r: HeadResult)
    ensures r.Got? ==> 1 <= r.head.size && pos + r.head.size <= |data|
    ensures r.Got? ==> r.head.major == data[pos] / 32 && r.head.info == data[pos] % 32
    ensures r.Got? && !r.head.IsBreak() ==> r.head.Valid()
  {
    if pos >= |data| then Short
    else
      var major, info := data[pos] / 32, data[pos] % 32;
      if info < 24 then Got(Head(major, info, info, 1))
      else if info < 28 then
        var n := ArgumentSize(info);
        if |data| - pos < 1 + n then Short
        else Got(Head(major, info, BigEndian(data[pos + 1..pos + 1 + n]), 1 + n))
      else if info == 31 && major == 7 then Got(Head(major, info, 0, 1))
      else if info == 31 && 2 <= major <= 5 then Got(Head(major, info, 0, 1))
      else Bad
  }

  lemma BigEndianNext(bytes: seq<byte>, last: byte)
    ensures BigEndian(bytes + [last]) == BigEndian(bytes) * 256 + last
  {
    assert (bytes + [last])[..|bytes|] == bytes;
  }

  function Word16(a: int, b: int): int { 0x100 * a + b }

  function Word32(a: int, b: int, c: int, d: int): int { 0x1_0000 * Word16(a, b) + Word16(c, d) }

  lemma BigEndianOfTwo(a: byte, b: byte)
    ensures BigEndian([a]) == a && BigEndian([a, b]) == Word16(a, b)
  {
    assert BigEndian([]) == 0;
    BigEndianNext([], a);
    BigEndianNext([a], b);
    assert [] + [a] == [a] && [a] + [b] == [a, b];
  }

  lemma BigEndianOfFour(a: byte, b: byte, c: byte, d: byte)
    ensures BigEndian([a, b, c, d]) == Word32(a, b, c, d)
  {
    BigEndianOfTwo(a, b);
    BigEndianNext([a, b], c);
    BigEndianNext([a, b, c], d);
    assert [a, b] + [c] == [a, b, c] && [a, b, c] + [d] == [a, b, c, d];
  }

  lemma BigEndianOfEight(s: seq<byte>)
    requires |s| == 8
    ensures BigEndian(s) == 0x1_0000_0000 * Word32(s[0], s[1], s[2], s[3]) + Word32(s[4], s[5], s[6], s[7])
  {
    hide BigEndian;
    BigEndianOfFour(s[0], s[1], s[2], s[3]);
    assert s[..4] == [s[0], s[1], s[2], s[3]];
    BigEndianNext(s[..4], s[4]);
    BigEndianNext(s[..5], s[5]);
    BigEndianNext(s[..6], s[6]);
    BigEndianNext(s[..7], s[7]);
    assert s[..4] + [s[4]] == s[..5] && s[..5] + [s[5]] == s[..6] && s[..6] + [s[6]] == s[..7] && s[..7] + [s[7]] == s;
  }

  /** The header that `d` starts with, byte by byte: the argument is in the low five bits, or in the one,
      two, four or eight bytes that follow, most significant first. */
  function HeaderForm(d: seq<byte>): HeadResult {
    if d == [] then Short
    else
      var major, info := d[0] / 32, d[0] % 32;
      if info < 24 then Got(Head(major, info, info, 1))
      else if info == 24 then if |d| < 2 then Short else Got(Head(major, 24, d[1], 2))
      else if info == 25 then if |d| < 3 then Short else Got(Head(major, 25, Word16(d[1], d[2]), 3))
      else if info == 26 then
        if |d| < 5 then Short else Got(Head(major, 26, Word32(d[1], d[2], d[3], d[4]), 5))
      else if info == 27 then
        if |d| < 9 then Short
        else
          Got(Head(major, 27, 0x1_0000_0000 * Word32(d[1], d[2], d[3], d[4]) + Word32(d[5], d[6], d[7], d[8]), 9))
      else if info == 31 && 2 <= major && major != 6 then Got(Head(major, 31, 0, 1))
      else Bad
  }

  /** Every header is read in that form. */
  lemma HeaderForms(data: seq<byte>, pos: nat)
    requires pos <= |data|
    ensures ReadHead(data, pos) == HeaderForm(data[pos..])
  {
    hide BigEndian;
    var d := data[pos..];
    if d != [] {
      var info := d[0] % 32;
      if info == 24 && |d| >= 2 {
        BigEndianOfTwo(d[1], 0);
        assert data[pos + 1..pos + 2] == [d[1]];
      } else if info == 25 && |d| >= 3 {
        BigEndianOfTwo(d[1], d[2]);
        assert data[pos + 1..pos + 3] == [d[1], d[2]];
      } else if info == 26 && |d| >= 5 {
        BigEndianOfFour(d[1], d[2], d[3], d[4]);
        assert data[pos + 1..pos + 5] == [d[1], d[2], d[3], d[4]];
      } else if info == 27 && |d| >= 9 {
        BigEndianOfEight(data[pos + 1..pos + 9]);
      }
    }
  }

  function EncodeHead(h: Head): (r: seq<byte>)
    requires h.Valid()
    ensures |r| == h.size && r[0] == h.major * 32 + h.info
  {
    [h.major * 32 + h.info] + ToBigEndian(h.arg, h.size - 1)
  }

  // ----- items

  /** A leaf (integer, simple value or float), a definite string, a definite container or tag, or
      an indefinite-length string, array or map. */
  datatype Item =
    | Leaf(head: Head)
    | Text(head: Head, payload: seq<byte>)
    | Node(head: Head, kids: seq<Item>)
    | Open(head: Head, kids: seq<Item>)

  /** How many items a definite container or tag declares. */
  function Declared(h: Head): nat {
    if h.major == 4 then h.arg else if h.major == 5 then 2 * h.arg else 1
  }

  predicate WellFormed(t: Item) {
    t.head.Valid() &&
    match t
    case Leaf(h) => h.major in {0, 1, 7}
    case Text(h, payload) => h.major in {2, 3} && h.info != 31 && |payload| == h.arg
    case Node(h, kids) => 4 <= h.major <= 6 && h.info != 31 && |kids| == Declared(h) && AllWellFormed(kids)
    case Open(h, kids) => h.info == 31 && AllWellFormed(kids)
  }

  predicate AllWellFormed(ts: seq<Item>) {
    forall t :: t in ts ==> WellFormed(t)
  }

  function Encode(t: Item): (r: seq<byte>)
    requires WellFormed(t)
    ensures |r| >= 1
    decreases t, 2
  {
    EncodeHead(t.head) + Body(t)
  }

  function Body(t: Item): seq<byte>
    requires WellFormed(t)
    decreases t, 1
  {
    match t
    case Leaf(_) => []
    case Text(_, payload) => payload
    case Node(_, kids) => EncodeAll(kids)
    case Open(_, kids) => EncodeAll(kids) + [BREAK]
  }

  function EncodeAll(ts: seq<Item>): seq<byte>
    requires AllWellFormed(ts)
    decreases ts, 0
  {
    if ts == [] then [] else Encode(ts[0]) + EncodeAll(ts[1..])
  }

  /** Items in the item, itself included. */
  function Nodes(t: Item): nat
    decreases t, 1
  {
    match t
    case Leaf(_) => 1
    case Text(_, _) => 1
    case Node(_, kids) => 1 + AllNodes(kids)
    case Open(_, kids) => 1 + AllNodes(kids)
  }

  function AllNodes(ts: seq<Item>): (r: nat)
    ensures r >= |ts|
    decreases ts, 0
  {
    if ts == [] then 0 else Nodes(ts[0]) + AllNodes(ts[1..])
  }

  // ----- recursive descent

  datatype ParseOne = NoItem | OneItem(item: Item, end: nat)
  datatype ParseSeq = NoItems | Items(items: seq<Item>, end: nat)

  /** The item that starts at `pos`, and where it ends. */
  function ParseItem(data: seq<byte>, pos: nat): (r: ParseOne)
    requires pos <= |data|
    ensures r.OneItem? ==> pos < r.end <= |data|
    decreases |data| - pos, 0, 0
  {
    var head := ReadHead(data, pos);
    if !head.Got? || head.head.IsBreak() then NoItem
    else
      var h, p := head.head, pos + head.head.size;
      if h.major in {0, 1, 7} then OneItem(Leaf(h), p)
      else if h.info == 31 then
        var kids := ParseOpen(data, p);
        if kids.NoItems? then NoItem else OneItem(Open(h, kids.items), kids.end)
      else if h.major in {2, 3} then
        if h.arg <= |data| - p then OneItem(Text(h, data[p..p + h.arg]), p + h.arg) else NoItem
      else
        var kids := ParseMany(data, p, Declared(h));
        if kids.NoItems? then NoItem else OneItem(Node(h, kids.items), kids.end)
  }

  function ParseMany(data: seq<byte>, pos: nat, count: nat): (r: ParseSeq)
    requires pos <= |data|
    ensures r.Items? ==> pos + count <= r.end <= |data| && |r.items| == count
    decreases |data| - pos, 1, count
  {
    if count == 0 then Items([], pos)
    else
      var first := ParseItem(data, pos);
      if first.NoItem? then NoItems
      else
        var rest := ParseMany(data, first.end, count - 1);
        if rest.NoItems? then NoItems else Items([first.item] + rest.items, rest.end)
  }

  /** Items up to the break that ends them. */
  function ParseOpen(data: seq<byte>, pos: nat): (r: ParseSeq)
    requires pos <= |data|
    ensures r.Items? ==> pos < r.end <= |data|
    decreases |data| - pos, 1, 0
  {
    if pos == |data| then NoItems
    else if data[pos] == BREAK then Items([], pos + 1)
    else
      var first := ParseItem(data, pos);
      if first.NoItem? then NoItems
      else
        var rest := ParseOpen(data, first.end);
        if rest.NoItems? then NoItems else Items([first.item] + rest.items, rest.end)
  }

  // ----- the parser inverts the encoder, in both directions

  lemma ReadsEncodedHead(h: Head, data: seq<byte>, pos: nat)
    requires h.Valid() && pos + h.size <= |data| && data[pos..pos + h.size] == EncodeHead(h)
    ensures ReadHead(data, pos) == Got(h) && data[pos] != BREAK
    ensures !h.IsBreak() && (h.info == 31 ==> 2 <= h.major <= 5)
  {
    assert data[pos] == data[pos..pos + h.size][0] == h.major * 32 + h.info;
    SplitByte(h.major, h.info);
    hide BigEndian, ToBigEndian, Pow256;
    if 24 <= h.info < 28 {
      assert h.size == 1 + ArgumentSize(h.info);
      BigEndianRoundTrip(h.arg, h.size - 1);
      assert data[pos + 1..pos + h.size] == data[pos..pos + h.size][1..] == ToBigEndian(h.arg, h.size - 1);
    }
  }

  lemma SplitByte(major: nat, info: nat)
    requires info < 32
    ensures (major * 32 + info) / 32 == major && (major * 32 + info) % 32 == info
  {
  }

  lemma HeadIsEncoded(data: seq<byte>, pos: nat)
    requires ReadHead(data, pos).Got? && !ReadHead(data, pos).head.IsBreak()
    ensures var h := ReadHead(data, pos).head;
            data[pos..pos + h.size] == EncodeHead(h) && h.major < 8 && (h.info == 31 ==> 2 <= h.major <= 5)
  {
    hide BigEndian, ToBigEndian, Pow256;
    var h := ReadHead(data, pos).head;
    var tail := data[pos + 1..pos + h.size];
    if 24 <= h.info < 28 { ToBigEndianRoundTrip(tail); } else { ToBigEndianRoundTrip([]); assert h.size == 1; }
    assert tail == ToBigEndian(h.arg, h.size - 1);
    assert data[pos..pos + h.size] == [data[pos]] + tail;
  }

  lemma NoItemAtBreak(data: seq<byte>, pos: nat)
    requires pos < |data| && data[pos] == BREAK
    ensures ParseItem(data, pos) == NoItem
  {
  }

  lemma SubAt(data: seq<byte>, pos: nat, a: seq<byte>, b: seq<byte>)
    requires pos + |a| + |b| <= |data| && data[pos..pos + |a| + |b|] == a + b
    ensures data[pos..pos + |a|] == a && data[pos + |a|..pos + |a| + |b|] == b
  {
    assert data[pos..pos + |a|] == data[pos..pos + |a| + |b|][..|a|];
    assert data[pos + |a|..pos + |a| + |b|] == data[pos..pos + |a| + |b|][|a|..];
  }

  /** An encoded item is parsed back wherever it stands and whatever follows it. */
  lemma {:induction false} ParsesEncoded(t: Item, data: seq<byte>, pos: nat)
    requires WellFormed(t) && pos + |Encode(t)| <= |data| && data[pos..pos + |Encode(t)|] == Encode(t)
    ensures ParseItem(data, pos) == OneItem(t, pos + |Encode(t)|)
    decreases t, 1
  {
    hide ReadHead, EncodeHead, Head.Valid;
    var h := t.head;
    SubAt(data, pos, EncodeHead(h), Body(t));
    ReadsEncodedHead(h, data, pos);
    var p := pos + h.size;
    match t
    case Leaf(_) =>
    case Text(_, payload) =>
    case Node(_, kids) => ParsesEncodedAll(kids, data, p);
    case Open(_, kids) =>
      var at := p + |EncodeAll(kids)|;
      SubAt(data, p, EncodeAll(kids), [BREAK]);
      assert data[at] == data[at..at + 1][0] == BREAK;
      ParsesEncodedOpen(kids, data, p);
  }

  lemma {:induction false} ParsesEncodedAll(ts: seq<Item>, data: seq<byte>, pos: nat)
    requires AllWellFormed(ts) && pos + |EncodeAll(ts)| <= |data| && data[pos..pos + |EncodeAll(ts)|] == EncodeAll(ts)
    ensures ParseMany(data, pos, |ts|) == Items(ts, pos + |EncodeAll(ts)|)
    decreases ts, 0
  {
    hide ParseItem, Encode, EncodeHead, ReadHead;
    if ts != [] {
      SubAt(data, pos, Encode(ts[0]), EncodeAll(ts[1..]));
      ParsesEncoded(ts[0], data, pos);
      ParsesEncodedAll(ts[1..], data, pos + |Encode(ts[0])|);
      assert ts == [ts[0]] + ts[1..];
    }
  }

  lemma {:induction false} ParsesEncodedOpen(ts: seq<Item>, data: seq<byte>, pos: nat)
    requires AllWellFormed(ts) && pos + |EncodeAll(ts)| < |data| && data[pos..pos + |EncodeAll(ts)|] == EncodeAll(ts)
    requires data[pos + |EncodeAll(ts)|] == BREAK
    ensures ParseOpen(data, pos) == Items(ts, pos + |EncodeAll(ts)| + 1)
    decreases ts, 0
  {
    hide ParseItem, Encode, EncodeHead, ReadHead;
    if ts != [] {
      SubAt(data, pos, Encode(ts[0]), EncodeAll(ts[1..]));
      ParsesEncoded(ts[0], data, pos);
      if data[pos] == BREAK { NoItemAtBreak(data, pos); }
      ParsesEncodedOpen(ts[1..], data, pos + |Encode(ts[0])|);
      assert ts == [ts[0]] + ts[1..];
    }
  }

  lemma Joined(data: seq<byte>, i: nat, j: nat, k: nat)
    requires i <= j <= k <= |data|
    ensures data[i..k] == data[i..j] + data[j..k]
  {
  }

  /** What is parsed is a well-formed item whose encoding is exactly the bytes consumed. */
  lemma {:induction false} ParsedIsEncoded(data: seq<byte>, pos: nat)
    requires pos <= |data| && ParseItem(data, pos).OneItem?
    ensures var r := ParseItem(data, pos); WellFormed(r.item) && data[pos..r.end] == Encode(r.item)
    decreases |data| - pos, 0, 0
  {
    HeadIsEncoded(data, pos);
    hide ReadHead, EncodeHead, Head.Valid;
    var r := ParseItem(data, pos);
    var h := ReadHead(data, pos).head;
    var p := pos + h.size;
    Joined(data, pos, p, r.end);
    match r.item
    case Leaf(_) =>
    case Text(_, _) =>
    case Node(_, kids) => ParsedManyIsEncoded(data, p, Declared(h));
    case Open(_, kids) => ParsedOpenIsEncoded(data, p);
  }

  lemma {:induction false} ParsedManyIsEncoded(data: seq<byte>, pos: nat, count: nat)
    requires pos <= |data| && ParseMany(data, pos, count).Items?
    ensures var r := ParseMany(data, pos, count); AllWellFormed(r.items) && data[pos..r.end] == EncodeAll(r.items)
    decreases |data| - pos, 1, count
  {
    if count > 0 {
      var first := ParseItem(data, pos);
      ParsedIsEncoded(data, pos);
      ParsedManyIsEncoded(data, first.end, count - 1);
      Joined(data, pos, first.end, ParseMany(data, pos, count).end);
    }
  }

  lemma {:induction false} ParsedOpenIsEncoded(data: seq<byte>, pos: nat)
    requires pos <= |data| && ParseOpen(data, pos).Items?
    ensures var r := ParseOpen(data, pos);
            AllWellFormed(r.items) && data[pos..r.end] == EncodeAll(r.items) + [BREAK]
    decreases |data| - pos, 1, 0
  {
    if data[pos] != BREAK {
      var first := ParseItem(data, pos);
      ParsedIsEncoded(data, pos);
      ParsedOpenIsEncoded(data, first.end);
      Joined(data, pos, first.end, ParseOpen(data, pos).end);
    }
  }
}
