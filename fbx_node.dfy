/**
 * The binary node records of an FBX file (`AK_FBX__Binary_Read_Node`,
 * `AK_FBX__Parse`).  A record is three words (the end offset of the
 * record, the property count and the byte length of the property list),
 * a length-prefixed name, the property list and, when the record ends
 * later than its properties, the nested records followed by a sentinel
 * of zero bytes.  Words are 64-bit from file version 7500 on.  A record
 * whose end offset is 0 terminates the list it is in.
 */
module FbxNode {
  import opened Bits
  import opened Wrappers
  import opened FbxBytes
  import opened FbxStream
  import opened FbxProperty

  datatype Node = Node(name: seq<u8>, properties: seq<Property>, children: seq<Node>)

  datatype NodeStatus = Success | Terminate | Error

  /** `"Kaydara FBX Binary"`, the start of the header of a binary file. */
  const MAGIC: seq<u8> := [0x4B, 0x61, 0x79, 0x64, 0x61, 0x72, 0x61, 0x20, 0x46,
                           0x42, 0x58, 0x20, 0x42, 0x69, 0x6E, 0x61, 0x72, 0x79]
  /** The header bytes before the version word. */
  const HEADER_SIZE: nat := 23
  const VERSION_SIZE: nat := 4
  /** The first version with 64-bit record words. */
  const VERSION_64BIT: nat := 7500
  /** `"Root"`, the name of the node that holds the top-level records. */
  const ROOT_NAME: seq<u8> := [0x52, 0x6F, 0x6F, 0x74]

  /** The zero bytes that close a list of nested records: three words and a byte. */
  function SentinelLength(is64: bool): nat
  {
    3 * WordSize(is64) + 1
  }

  /** The fields of the record header at `pos`. */
  function EndOffsetAt(data: seq<u8>, pos: nat, is64: bool): nat
  {
    LittleEndian(data, pos, WordSize(is64))
  }

  function PropertyCountAt(data: seq<u8>, pos: nat, is64: bool): nat
  {
    LittleEndian(data, pos + WordSize(is64), WordSize(is64))
  }

  function PropertyLengthAt(data: seq<u8>, pos: nat, is64: bool): nat
  {
    LittleEndian(data, pos + 2 * WordSize(is64), WordSize(is64))
  }

  function NameLengthAt(data: seq<u8>, pos: nat, is64: bool): u8
  {
    ByteAt(data, pos + 3 * WordSize(is64))
  }

  /** The node name as `AK_FBX__Make_String` copies it. */
  function NameAt(data: seq<u8>, pos: nat, is64: bool): seq<u8>
  {
    var n := NameLengthAt(data, pos, is64);
    StrNCopy(Window(data, pos + 3 * WordSize(is64) + 1, n), n)
  }

  /** The size of the record header at `pos`, name included. */
  function HeaderLengthAt(data: seq<u8>, pos: nat, is64: bool): nat
  {
    3 * WordSize(is64) + 1 + NameLengthAt(data, pos, is64)
  }

  /** Where the `k`-th property of a list starting at `start` begins. */
  function PropertyOffset(data: seq<u8>, start: nat, k: nat): (r: nat)
    ensures r >= start + k
  {
    if k == 0 then start
    else
      var p := PropertyOffset(data, start, k - 1);
      p + Extent(data, p)
  }

  /** The list was read property by property: each is what the reader accepts at its offset. */
  ghost predicate PropertiesRead(data: seq<u8>, start: nat, props: seq<Property>)
  {
    forall k {:trigger props[k]} :: 0 <= k < |props| ==> ReadsAs(data, PropertyOffset(data, start, k), props[k])
  }

  /**
   * From `at` to `end` the buffer holds the properties `props`, one after
   * another, none of them a zlib-compressed array: each decodes to the
   * next of `props` and ends by `end`, and the last ends at `end`.
   */
  ghost predicate PlainProperties(data: seq<u8>, at: nat, end: nat, props: seq<Property>)
    decreases props
  {
    if props == [] then at == end
    else
      && !Compressed(data, at) && Decoded(data, at) == Some(props[0])
      && at + Extent(data, at) <= end
      && PlainProperties(data, at + Extent(data, at), end, props[1..])
  }

  /** The zero sentinel check of the source: all `n` bytes from `from` are 0. */
  ghost predicate ZeroBytes(data: seq<u8>, from: nat, n: nat)
  {
    forall j :: from <= j < from + n ==> ByteAt(data, j) == 0
  }

  /**
   * The property list of a node: `count` records read from a stream over
   * the `length` bytes at the cursor of `s`, which must end exactly at
   * the end of that window.
   */
  method ReadProperties(s: Stream, length: nat, count: nat, ghost start: nat, ghost want: seq<Property>) returns (ok: bool, props: seq<Property>)
    requires start == s.base + s.at
    ensures ok ==> |props| == count
    ensures ok ==> PropertyOffset(s.data, start, count) == start + length
    ensures ok ==> PropertiesRead(s.data, start, props)
    ensures |want| == count && PlainProperties(s.data, start, start + length, want) ==> ok && props == want
  {
    ghost var plain := |want| == count && PlainProperties(s.data, start, start + length, want);
    ghost var rest := want;
    var ps := new Stream.Create(s.data, s.base + s.at, length, 0);
    props := [];
    while |props| < count
      invariant |props| <= count
      invariant ps.data == s.data && ps.base == start && ps.length == length
      invariant ps.base + ps.at == PropertyOffset(s.data, start, |props|)
      invariant PropertiesRead(s.data, start, props)
      invariant plain ==> want == props + rest && |rest| == count - |props| && PlainProperties(ps.data, ps.base + ps.at, ps.base + ps.length, rest)
      decreases count - |props|
    {
      ghost var wanted := if plain then rest else [];
      var read;
      read, props := ReadListedProperty(ps, start, props, wanted);
      if !read {
        return false, props;
      }
      if plain {
        rest := rest[1..];
      }
    }
    ok := ps.length == ps.at;
    assert props + [] == props;
  }

  /**
   * `ReadProperty` as the property list sees it: the next record of a
   * list starting at `start`, after the records `props`, is appended to them.
   */
  method ReadListedProperty(ps: Stream, ghost start: nat, props: seq<Property>, ghost want: seq<Property>) returns (ok: bool, next: seq<Property>)
    requires ps.base + ps.at == PropertyOffset(ps.data, start, |props|)
    requires PropertiesRead(ps.data, start, props)
    modifies ps
    ensures ok ==> |next| == |props| + 1
    ensures ok ==> ps.base + ps.at == PropertyOffset(ps.data, start, |next|)
    ensures ok ==> PropertiesRead(ps.data, start, next)
    ensures ok ==> ps.base + ps.at == ps.base + old(ps.at) + Extent(ps.data, ps.base + old(ps.at))
    ensures want != [] && PlainProperties(ps.data, ps.base + old(ps.at), ps.base + ps.length, want) ==>
              && ok && next == props + [want[0]] && next + want[1..] == props + want
              && PlainProperties(ps.data, ps.base + ps.at, ps.base + ps.length, want[1..])
  {
    ghost var at := ps.base + ps.at;
    var p;
    ok, p := ReadAcceptedProperty(ps, at);
    next := props + [p];
    if ok {
      PropertyOffsetNext(ps.data, start, |props|, at);
      PropertiesReadSnoc(ps.data, start, props, p, at);
    }
  }

  /** `ReadProperty` reduced to what a list needs: an accepted record and the bytes it took. */
  method ReadAcceptedProperty(ps: Stream, ghost at: nat) returns (ok: bool, p: Property)
    requires at == ps.base + ps.at
    modifies ps
    ensures ok ==> ps.base + ps.at == at + Extent(ps.data, at)
    ensures ok ==> ReadsAs(ps.data, at, p)
    ensures && old(ps.at) + Extent(ps.data, at) <= ps.length
            && !Compressed(ps.data, at) && Decoded(ps.data, at).Some?
            ==> ok && Decoded(ps.data, at) == Some(p)
  {
    ghost var ops, written;
    ok, p, ops, written := ReadProperty(ps);
  }

  lemma PropertyOffsetNext(data: seq<u8>, start: nat, i: nat, at: nat)
    requires at == PropertyOffset(data, start, i)
    ensures PropertyOffset(data, start, i + 1) == at + Extent(data, at)
  {
  }

  lemma PropertiesReadSnoc(data: seq<u8>, start: nat, props: seq<Property>, p: Property, at: nat)
    requires PropertiesRead(data, start, props)
    requires at == PropertyOffset(data, start, |props|) && ReadsAs(data, at, p)
    ensures PropertiesRead(data, start, props + [p])
  {
    var all := props + [p];
    assert all[..|props|] == props && all[|props|] == p;
  }

  /** A list of `count` properties that ends within `length` bytes has at most `length` of them. */
  lemma PropertyCountBound(data: seq<u8>, start: nat, count: nat, length: nat)
    requires PropertyOffset(data, start, count) == start + length
    ensures count <= length
  {
  }

  /** The sentinel loop of the source: whether the `n` bytes from `from` are all 0. */
  method CheckSentinel(data: seq<u8>, from: nat, n: nat) returns (zero: bool)
    ensures zero <==> ZeroBytes(data, from, n)
  {
    var i := 0;
    while i < n
      invariant 0 <= i <= n
      invariant ZeroBytes(data, from, i)
    {
      if ByteAt(data, from + i) != 0 {
        return false;
      }
      i := i + 1;
    }
    return true;
  }

  /**
   * `AK_FBX__Binary_Read_Node` on `s`, for a file with 64-bit words when
   * `is64`.  A terminating record yields an empty node, as the source
   * leaves its node unfilled.
   */
  method ReadNode(s: Stream, is64: bool, ghost want: Node) returns (status: NodeStatus, node: Node)
    modifies s
    decreases s.Remaining(), 2
    ensures status == Terminate <==> EndOffsetAt(s.data, s.base + old(s.at), is64) == 0
    ensures status == Terminate ==> s.at == old(s.at) + WordSize(is64) && node == Node([], [], [])
    ensures status != Error ==> s.at > old(s.at)
    ensures EndOffsetAt(s.data, s.base + old(s.at), is64) > s.length ==> status == Error
    ensures status == Success ==> EndOffsetAt(s.data, s.base + old(s.at), is64) == s.at <= s.length
    ensures status == Success ==> NodeAt(s.data, s.base, s.base + old(s.at), is64, node)
    ensures status != Error ==> s.base + s.at == NextRecord(s.data, s.base, s.base + old(s.at), is64)
    ensures status != Error ==> ChildAt(s.data, s.base, is64, s.base + old(s.at), node)
    ensures PlainChild(s.data, s.base, is64, s.base + old(s.at), s.length, want) ==> status != Error && node == want
  {
    node := Node([], [], []);
    ghost var pos := s.base + s.at;
    var end := s.ReadWord(is64);
    if end == 0 {
      return Terminate, node;
    }
    PlainChildBounds(s.data, s.base, is64, pos, s.length, want);
    if end > s.length || end < s.at {
      return Error, node;
    }
    var ok;
    ok, node := ReadRecord(s, is64, pos, end, want);
    status := if ok then Success else Error;
  }

  /** `ReadNode` as the top-level list sees it. */
  method ReadTopLevelRecord(s: Stream, is64: bool, ghost want: Node) returns (status: NodeStatus, node: Node)
    modifies s
    ensures status == Terminate <==> EndOffsetAt(s.data, s.base + old(s.at), is64) == 0
    ensures status != Error ==> s.at > old(s.at) && s.base + s.at == NextRecord(s.data, s.base, s.base + old(s.at), is64)
    ensures status == Success ==> NodeAt(s.data, s.base, s.base + old(s.at), is64, node)
    ensures PlainNode(s.data, s.base, s.base + old(s.at), is64, s.length, want) ==> status == Success && node == want
  {
    status, node := ReadNode(s, is64, want);
  }

  /** The record at `pos` after its end offset `end`: the header, the property list and the nested records. */
  method ReadRecord(s: Stream, is64: bool, ghost pos: nat, end: nat, ghost want: Node) returns (ok: bool, node: Node)
    requires s.base + s.at == pos + WordSize(is64) && end <= s.length && end == EndOffsetAt(s.data, pos, is64)
    modifies s
    decreases s.Remaining(), 1
    ensures s.at > old(s.at)
    ensures ok ==> s.at == end
    ensures ok ==> NodeAt(s.data, s.base, pos, is64, node)
    ensures PlainNode(s.data, s.base, pos, is64, s.length, want) ==> ok && node == want
  {
    node := Node([], [], []);
    var name, props;
    ok, name, props := ReadHeaderAndProperties(s, is64, pos, want.properties);
    if !ok {
      return false, node;
    }
    ghost var listEnd := s.base + s.at;
    var children;
    ok, children := ReadNested(s, end, is64, want.children);
    node := Node(name, props, children);
    if ok {
      NodeAtOf(s.data, s.base, pos, is64, listEnd, name, props, children);
    }
  }

  /** A record whose header, properties and nested records were read is the node at `pos`. */
  lemma NodeAtOf(data: seq<u8>, base: nat, pos: nat, is64: bool, listEnd: nat,
                 name: seq<u8>, props: seq<Property>, children: seq<Node>)
    requires EndOffsetAt(data, pos, is64) != 0 && listEnd == PropertiesEnd(data, pos, is64)
    requires HeaderAndPropertiesRead(data, pos, is64, name, props)
    requires NestedRead(data, listEnd, base + EndOffsetAt(data, pos, is64), is64, children)
    requires listEnd < base + EndOffsetAt(data, pos, is64) ==>
               && ChildrenRead(data, base, is64, listEnd, base + EndOffsetAt(data, pos, is64) - SentinelLength(is64), children)
               && RecordOffset(data, base, is64, listEnd, |children|) == base + EndOffsetAt(data, pos, is64) - SentinelLength(is64)
    ensures NodeAt(data, base, pos, is64, Node(name, props, children))
  {
  }

  /**
   * The part of a record between its end offset and its nested records:
   * the property count and length words, the name, and the property list,
   * which must fit in the window of `s` and which the cursor then skips.
   */
  method ReadHeaderAndProperties(s: Stream, is64: bool, ghost pos: nat, ghost want: seq<Property>)
    returns (ok: bool, name: seq<u8>, props: seq<Property>)
    requires s.base + s.at == pos + WordSize(is64)
    modifies s
    ensures s.at > old(s.at)
    ensures ok ==> s.at <= s.length && s.base + s.at == PropertiesEnd(s.data, pos, is64)
    ensures ok ==> HeaderAndPropertiesRead(s.data, pos, is64, name, props)
    ensures && PropertiesEnd(s.data, pos, is64) <= s.base + s.length && |want| == PropertyCountAt(s.data, pos, is64)
            && PlainProperties(s.data, PropertiesStart(s.data, pos, is64), PropertiesEnd(s.data, pos, is64), want)
            ==> ok && props == want
  {
    var count, length;
    count, length, name := ReadCountsAndName(s, is64, pos);
    props := [];
    if s.at + length > s.length {
      // The test without the 64-bit wrap of `PropertyListOutOfBoundsAsWritten`.
      return false, name, props;
    }
    ok, props := ReadProperties(s, length, count, s.base + s.at, want);
    if ok {
      s.Skip(length);
    }
  }

  /**
   * The bound test on the property list of `AK_FBX__Binary_Read_Node` as
   * written: `At + PropertyLength` is summed in 64 bits before it is
   * compared with `Length`.
   */
  predicate PropertyListOutOfBoundsAsWritten(at: u64, length: u64, windowLength: u64)
  {
    Wrap64(at + length) > windowLength
  }

  /**
   * In a 64-bit file, a property length of 2^64 - 10 read at offset 30 of
   * a 100-byte window wraps the sum to 20, which passes the test, although
   * the list would end far beyond the window.
   */
  lemma PropertyListBoundWraps()
    ensures !PropertyListOutOfBoundsAsWritten(30, U64_LIMIT - 10, 100)
    ensures 30 + (U64_LIMIT - 10) > 100
  {
    assert Wrap64(30 + (U64_LIMIT - 10)) == 20;
  }

  /** Where the property list of the record at `pos` starts: just after the header. */
  function PropertiesStart(data: seq<u8>, pos: nat, is64: bool): nat
  {
    pos + HeaderLengthAt(data, pos, is64)
  }

  /** Where it ends: the property length later. */
  function PropertiesEnd(data: seq<u8>, pos: nat, is64: bool): nat
  {
    PropertiesStart(data, pos, is64) + PropertyLengthAt(data, pos, is64)
  }

  /**
   * The header of the record at `pos` gives the name, and the property
   * list fills the bytes from `PropertiesStart` to `PropertiesEnd`,
   * holding as many properties as the header counts.
   */
  ghost predicate HeaderAndPropertiesRead(data: seq<u8>, pos: nat, is64: bool, name: seq<u8>, props: seq<Property>)
  {
    && name == NameAt(data, pos, is64)
    && |props| == PropertyCountAt(data, pos, is64)
    && PropertyOffset(data, PropertiesStart(data, pos, is64), |props|) == PropertiesEnd(data, pos, is64)
    && PropertiesRead(data, PropertiesStart(data, pos, is64), props)
  }

  /** The rest of a record header: the property count and length words, then the name. */
  method ReadCountsAndName(s: Stream, is64: bool, ghost pos: nat) returns (count: nat, length: nat, name: seq<u8>)
    requires s.base + s.at == pos + WordSize(is64)
    modifies s
    ensures s.base + s.at == pos + HeaderLengthAt(s.data, pos, is64)
    ensures count == PropertyCountAt(s.data, pos, is64) && length == PropertyLengthAt(s.data, pos, is64)
    ensures name == NameAt(s.data, pos, is64)
  {
    count := s.ReadWord(is64);
    length := s.ReadWord(is64);
    name := ReadName(s, is64, pos);
  }

  /** The name of the record at `pos`: a length byte, then `AK_FBX__Make_String` of that many bytes. */
  method ReadName(s: Stream, is64: bool, ghost pos: nat) returns (name: seq<u8>)
    requires s.base + s.at == pos + 3 * WordSize(is64)
    modifies s
    ensures s.base + s.at == pos + HeaderLengthAt(s.data, pos, is64)
    ensures name == NameAt(s.data, pos, is64)
  {
    var nameLength := s.ConsumeByte();
    var nameBytes := s.Consume(nameLength);
    name := StrNCopy(nameBytes, nameLength);
  }

  /**
   * The tail of a record from `listEnd` to its end `recordEnd`: either
   * empty, and the node has no children, or closed by the zero sentinel.
   */
  ghost predicate NestedRead(data: seq<u8>, listEnd: nat, recordEnd: nat, is64: bool, children: seq<Node>)
  {
    && listEnd <= recordEnd
    && (if listEnd == recordEnd then children == []
        else listEnd + SentinelLength(is64) <= recordEnd
             && ZeroBytes(data, recordEnd - SentinelLength(is64), SentinelLength(is64)))
  }

  /** Where a list goes on after the record at `pos`: one word on for a terminating record, at its end offset otherwise. */
  function NextRecord(data: seq<u8>, base: nat, pos: nat, is64: bool): nat
  {
    if EndOffsetAt(data, pos, is64) == 0 then pos + WordSize(is64) else base + EndOffsetAt(data, pos, is64)
  }

  /** Where the `k`-th record of a list starting at `start` begins, each record starting where the one before ended. */
  function RecordOffset(data: seq<u8>, base: nat, is64: bool, start: nat, k: nat): nat
  {
    if k == 0 then start else NextRecord(data, base, RecordOffset(data, base, is64, start, k - 1), is64)
  }

  /**
   * The record at `pos` of a list whose offsets count from `base` was read
   * as `node`: it does not terminate the list, its header gives the name
   * and the properties, and its tail up to its end offset is empty or closed
   * by the sentinel.
   */
  ghost predicate RecordAt(data: seq<u8>, base: nat, pos: nat, is64: bool, node: Node)
  {
    && EndOffsetAt(data, pos, is64) != 0
    && HeaderAndPropertiesRead(data, pos, is64, node.name, node.properties)
    && NestedRead(data, PropertiesEnd(data, pos, is64), base + EndOffsetAt(data, pos, is64), is64, node.children)
  }

  /** The record at `pos` was read as `child`: an empty node for a terminating record, the record at `pos` otherwise. */
  ghost predicate ChildAt(data: seq<u8>, base: nat, is64: bool, pos: nat, child: Node)
    decreases child, 2
  {
    if EndOffsetAt(data, pos, is64) == 0 then child == Node([], [], [])
    else NodeAt(data, base, pos, is64, child)
  }

  /**
   * `RecordAt`, and, when the record ends later than its properties, its
   * children are the records read one after another from the end of the
   * property list, the last ending where the sentinel starts.
   */
  ghost predicate NodeAt(data: seq<u8>, base: nat, pos: nat, is64: bool, node: Node)
    decreases node, 1
  {
    var listEnd := PropertiesEnd(data, pos, is64);
    var recordEnd := base + EndOffsetAt(data, pos, is64);
    && RecordAt(data, base, pos, is64, node)
    && (listEnd < recordEnd ==>
          && ChildrenRead(data, base, is64, listEnd, recordEnd - SentinelLength(is64), node.children)
          && RecordOffset(data, base, is64, listEnd, |node.children|) == recordEnd - SentinelLength(is64))
  }

  /** The records of a list starting at `start` were read as `children`, one after another, each before `limit`. */
  ghost predicate ChildrenRead(data: seq<u8>, base: nat, is64: bool, start: nat, limit: nat, children: seq<Node>)
    decreases children, 0
  {
    forall k {:trigger children[k]} :: 0 <= k < |children| ==>
      var at := RecordOffset(data, base, is64, start, k);
      at < limit && ChildAt(data, base, is64, at, children[k])
  }

  lemma RecordOffsetNext(data: seq<u8>, base: nat, is64: bool, start: nat, k: nat, at: nat)
    requires at == RecordOffset(data, base, is64, start, k)
    ensures RecordOffset(data, base, is64, start, k + 1) == NextRecord(data, base, at, is64)
  {
  }

  /** One more record read where the list goes on extends the list. */
  lemma ChildrenReadSnoc(data: seq<u8>, base: nat, is64: bool, start: nat, limit: nat, children: seq<Node>, at: nat, child: Node)
    requires ChildrenRead(data, base, is64, start, limit, children)
    requires at == RecordOffset(data, base, is64, start, |children|) && at < limit
    requires ChildAt(data, base, is64, at, child)
    ensures ChildrenRead(data, base, is64, start, limit, children + [child])
  {
    assert (children + [child])[..|children|] == children;
  }

  /**
   * The record at `pos` of a window of `length` bytes whose offsets count
   * from `base` is laid out as `node` with nothing compressed in it: it does
   * not terminate its list and ends inside the window after its properties, its header gives the
   * name and the property count, its property list holds the plain
   * properties of `node` and fills the bytes the header gives it, and the
   * rest of the record holds its children.
   */
  ghost predicate PlainNode(data: seq<u8>, base: nat, pos: nat, is64: bool, length: nat, node: Node)
    decreases node, 2
  {
    && 0 < EndOffsetAt(data, pos, is64) <= length
    && PropertiesEnd(data, pos, is64) <= base + EndOffsetAt(data, pos, is64)
    && node.name == NameAt(data, pos, is64)
    && |node.properties| == PropertyCountAt(data, pos, is64)
    && PlainProperties(data, PropertiesStart(data, pos, is64), PropertiesEnd(data, pos, is64), node.properties)
    && PlainTail(data, base, is64, PropertiesEnd(data, pos, is64), EndOffsetAt(data, pos, is64), node.children)
  }

  /**
   * The tail of a record from `listEnd` to its end offset `end`: empty, for
   * a record without children, or the records `children` one after another
   * up to a zero sentinel that closes the record.
   */
  ghost predicate PlainTail(data: seq<u8>, base: nat, is64: bool, listEnd: nat, end: nat, children: seq<Node>)
    decreases children, 1
  {
    if listEnd == base + end then children == []
    else
      && SentinelLength(is64) <= end && listEnd + SentinelLength(is64) <= base + end
      && ZeroBytes(data, base + end - SentinelLength(is64), SentinelLength(is64))
      && PlainChildren(data, base, is64, listEnd, end - SentinelLength(is64), children)
  }

  /**
   * From `at` the window of `length` bytes holds the records `kids`, each
   * starting where the one before went on, the last going on exactly at
   * the end of the window.
   */
  ghost predicate PlainChildren(data: seq<u8>, base: nat, is64: bool, at: nat, length: nat, kids: seq<Node>)
    decreases kids, 0
  {
    if kids == [] then at == base + length
    else
      && at < base + length
      && PlainChild(data, base, is64, at, length, kids[0])
      && PlainChildren(data, base, is64, NextRecord(data, base, at, is64), length, kids[1..])
  }

  /** A plain record that does not terminate its list ends inside the window, after its first word. */
  lemma PlainChildBounds(data: seq<u8>, base: nat, is64: bool, at: nat, length: nat, child: Node)
    ensures PlainChild(data, base, is64, at, length, child) && EndOffsetAt(data, at, is64) != 0 ==>
              EndOffsetAt(data, at, is64) <= length && at + WordSize(is64) <= base + EndOffsetAt(data, at, is64)
  {
    if PlainChild(data, base, is64, at, length, child) && EndOffsetAt(data, at, is64) != 0 {
      assert PlainNode(data, base, at, is64, length, child);
      assert at + WordSize(is64) <= PropertiesStart(data, at, is64) <= PropertiesEnd(data, at, is64);
    }
  }

  /** Reading the `k`-th of the records `want` moves one record along them. */
  lemma WantedNext(want: seq<Node>, k: nat)
    requires k < |want|
    ensures want[..k] + [want[k]] == want[..k + 1]
    ensures want[k..] != [] && want[k..][0] == want[k] && want[k..][1..] == want[k + 1..]
  {
  }

  /** The record at `at` is `child`: an empty node for a terminating record, a plain record otherwise. */
  ghost predicate PlainChild(data: seq<u8>, base: nat, is64: bool, at: nat, length: nat, child: Node)
    decreases child, 3
  {
    if EndOffsetAt(data, at, is64) == 0 then child == Node([], [], [])
    else PlainNode(data, base, at, is64, length, child)
  }

  /**
   * The nested records of a node that ends at `end`, when its property
   * list stops before that: they are read from a stream that stops before
   * the sentinel, until that stream runs out; the cursor of `s` then moves
   * to where they stopped, which must be inside the window and followed by
   * a zero sentinel that is skipped.  Either way the cursor must end at `end`.
   */
  method ReadNested(s: Stream, end: nat, is64: bool, ghost want: seq<Node>) returns (ok: bool, children: seq<Node>)
    requires end <= s.length
    modifies s
    decreases s.Remaining(), 0
    ensures s.at >= old(s.at)
    ensures ok ==> s.at == end && NestedRead(s.data, s.base + old(s.at), s.base + end, is64, children)
    ensures ok && old(s.at) < end ==>
              && ChildrenRead(s.data, s.base, is64, s.base + old(s.at), s.base + end - SentinelLength(is64), children)
              && RecordOffset(s.data, s.base, is64, s.base + old(s.at), |children|) == s.base + end - SentinelLength(is64)
    ensures PlainTail(s.data, s.base, is64, s.base + old(s.at), end, want) ==> ok && children == want
  {
    children := [];
    if s.at < end {
      var sentinel := SentinelLength(is64);
      if end - s.at < sentinel {
        return false, children;
      }
      var nested := new Stream.Create(s.data, s.base, end - sentinel, s.at);
      var read;
      read, children := ReadChildren(nested, is64, want);
      if !read {
        return false, children;
      }
      s.at := nested.at;
      if !s.IsValid() {
        return false, children;
      }
      var zero := CheckSentinel(s.data, s.base + s.at, sentinel);
      if !zero {
        return false, children;
      }
      s.Skip(sentinel);
    }
    ok := s.at == end;
  }

  /** The records of the nested stream `nested`, read until it runs out. */
  method ReadChildren(nested: Stream, is64: bool, ghost want: seq<Node>) returns (ok: bool, children: seq<Node>)
    modifies nested
    decreases nested.Remaining(), 4
    ensures ok ==> nested.at >= nested.length
    ensures ok ==> ChildrenRead(nested.data, nested.base, is64, nested.base + old(nested.at), nested.base + nested.length, children)
    ensures ok ==> RecordOffset(nested.data, nested.base, is64, nested.base + old(nested.at), |children|) == nested.base + nested.at
    ensures PlainChildren(nested.data, nested.base, is64, nested.base + old(nested.at), nested.length, want) ==>
              ok && children == want && nested.at == nested.length
  {
    ghost var start := nested.base + nested.at;
    ghost var plain := PlainChildren(nested.data, nested.base, is64, start, nested.length, want);
    children := [];
    while nested.IsValid()
      invariant ChildrenRead(nested.data, nested.base, is64, start, nested.base + nested.length, children)
      invariant RecordOffset(nested.data, nested.base, is64, start, |children|) == nested.base + nested.at
      invariant plain ==> |children| <= |want| && children == want[..|children|]
      invariant plain ==> PlainChildren(nested.data, nested.base, is64, nested.base + nested.at, nested.length, want[|children|..])
      decreases nested.Remaining()
    {
      ghost var k := |children|;
      ghost var w := if plain && k < |want| then want[k] else Node([], [], []);
      var read;
      read, children := ReadListedChild(nested, is64, start, children, w);
      if !read {
        return false, children;
      }
      if plain && k < |want| {
        WantedNext(want, k);
      }
    }
    ok := true;
    if plain {
      assert want[..|want|] == want;
    }
  }

  /**
   * `ReadNode` as a list of nested records sees it: the record after the
   * records `children` read from `start`, terminating or not, is appended to them.
   */
  method ReadListedChild(s: Stream, is64: bool, ghost start: nat, children: seq<Node>, ghost want: Node) returns (ok: bool, next: seq<Node>)
    requires s.IsValid()
    requires ChildrenRead(s.data, s.base, is64, start, s.base + s.length, children)
    requires RecordOffset(s.data, s.base, is64, start, |children|) == s.base + s.at
    modifies s
    decreases s.Remaining(), 3
    ensures ok ==> s.at > old(s.at)
    ensures ok ==> ChildrenRead(s.data, s.base, is64, start, s.base + s.length, next)
    ensures ok ==> RecordOffset(s.data, s.base, is64, start, |next|) == s.base + s.at
    ensures ok ==> s.base + s.at == NextRecord(s.data, s.base, s.base + old(s.at), is64)
    ensures PlainChild(s.data, s.base, is64, s.base + old(s.at), s.length, want) ==> ok && next == children + [want]
  {
    ghost var at := s.base + s.at;
    var status, child := ReadNode(s, is64, want);
    ok := status != Error;
    next := children;
    if ok {
      ChildrenReadSnoc(s.data, s.base, is64, start, s.base + s.length, children, at, child);
      RecordOffsetNext(s.data, s.base, is64, start, |children|, at);
      next := children + [child];
    }
  }

  /** The file starts with the binary header: `strncmp` against `MAGIC` on a non-empty buffer. */
  predicate IsBinary(data: seq<u8>)
  {
    |data| > 0 && StrNEqual(data, MAGIC, |MAGIC|)
  }

  /** The root name copied by `AK_FBX__Make_String` is the root name. */
  lemma RootNameCopy()
    ensures StrNCopy(ROOT_NAME, |ROOT_NAME|) == ROOT_NAME
  {
    StrNCopyNulFree(ROOT_NAME, |ROOT_NAME|);
    assert ROOT_NAME[..|ROOT_NAME|] == ROOT_NAME;
  }

  /**
   * The top-level records read from `start`: each is a node read where
   * the one before ended, before `limit`, and none of them terminates the list.
   */
  ghost predicate TopLevelRead(data: seq<u8>, is64: bool, start: nat, limit: nat, children: seq<Node>)
  {
    forall k {:trigger children[k]} :: 0 <= k < |children| ==>
      var at := RecordOffset(data, 0, is64, start, k);
      at < limit && NodeAt(data, 0, at, is64, children[k])
  }

  /** One more node read where the top-level list goes on extends it. */
  lemma TopLevelReadSnoc(data: seq<u8>, is64: bool, start: nat, limit: nat, children: seq<Node>, at: nat, child: Node)
    requires TopLevelRead(data, is64, start, limit, children)
    requires at == RecordOffset(data, 0, is64, start, |children|) && at < limit
    requires NodeAt(data, 0, at, is64, child)
    ensures TopLevelRead(data, is64, start, limit, children + [child])
  {
    assert (children + [child])[..|children|] == children;
  }

  /** The list ends at the record after `children`: the buffer runs out there, or that record terminates the list. */
  ghost predicate TopLevelEnds(data: seq<u8>, is64: bool, start: nat, limit: nat, children: seq<Node>)
  {
    var at := RecordOffset(data, 0, is64, start, |children|);
    at >= limit || EndOffsetAt(data, at, is64) == 0
  }

  /**
   * From `at` the buffer of `limit` bytes holds the plain top-level records
   * `records`, each starting where the one before ended, and the list ends
   * after the last: the buffer runs out there or a record terminates the list.
   */
  ghost predicate PlainRecords(data: seq<u8>, is64: bool, at: nat, limit: nat, records: seq<Node>)
    decreases records
  {
    if records == [] then at >= limit || EndOffsetAt(data, at, is64) == 0
    else
      && at < limit
      && PlainNode(data, 0, at, is64, limit, records[0])
      && PlainRecords(data, is64, NextRecord(data, 0, at, is64), limit, records[1..])
  }

  /** One step along plain top-level records: the list ends, or the next record is plain and so is the rest. */
  lemma PlainRecordsStep(data: seq<u8>, is64: bool, at: nat, limit: nat, done: seq<Node>, rest: seq<Node>)
    requires PlainRecords(data, is64, at, limit, rest)
    ensures rest == [] ==> at >= limit || EndOffsetAt(data, at, is64) == 0
    ensures rest != [] ==>
              && at < limit
              && PlainNode(data, 0, at, is64, limit, rest[0])
              && PlainRecords(data, is64, NextRecord(data, 0, at, is64), limit, rest[1..])
              && (done + [rest[0]]) + rest[1..] == done + rest
  {
  }

  /**
   * `AK_FBX__Parse`: the root node holding the top-level records of a
   * binary file, read until the buffer ends or a record terminates the
   * list; `None` when a record is malformed or the header is cut short.
   * A file that is not binary yields the bare root.  Records have 64-bit
   * words exactly when the version word after the header is 7500 or more.
   * The children of the root, or on an error the records read before the
   * malformed one (`read`), are the records that follow the version word.
   * A binary file that holds plain `records` after its version word is
   * read as the root holding them.
   */
  method Parse(data: seq<u8>, ghost records: seq<Node>) returns (root: Option<Node>, is64: bool, ghost read: seq<Node>)
    ensures !IsBinary(data) ==> root == Some(Node(ROOT_NAME, [], []))
    ensures IsBinary(data) && |data| <= HEADER_SIZE ==> root == None
    ensures IsBinary(data) && HEADER_SIZE < |data| <= HEADER_SIZE + VERSION_SIZE ==> root == Some(Node(ROOT_NAME, [], []))
    ensures root.Some? ==> root.value.name == ROOT_NAME && root.value.properties == []
    ensures IsBinary(data) && HEADER_SIZE < |data| ==>
              && (is64 <==> LittleEndian(data, HEADER_SIZE, VERSION_SIZE) >= VERSION_64BIT)
              && TopLevelRead(data, is64, HEADER_SIZE + VERSION_SIZE, |data|, read)
              && (root.Some? <==> TopLevelEnds(data, is64, HEADER_SIZE + VERSION_SIZE, |data|, read))
              && (root.Some? ==> root.value.children == read)
    ensures && IsBinary(data) && HEADER_SIZE < |data|
            && PlainRecords(data, is64, HEADER_SIZE + VERSION_SIZE, |data|, records)
            ==> root == Some(Node(ROOT_NAME, [], records))
  {
    is64, read := false, [];
    var rootName := StrNCopy(ROOT_NAME, |ROOT_NAME|);
    RootNameCopy();
    var s := new Stream.Create(data, 0, |data|, 0);
    if !(|data| > 0 && StrNEqual(data, MAGIC, |MAGIC|)) {
      return Some(Node(rootName, [], [])), is64, read;
    }
    s.Skip(HEADER_SIZE);
    if !s.IsValid() {
      return None, is64, read;
    }
    var ok, children;
    is64, ok, children := ReadVersionAndRecords(s, records);
    read := children;
    if !ok {
      return None, is64, read;
    }
    return Some(Node(rootName, [], children)), is64, read;
  }

  /** The version word after the header, which sets the word size, then the top-level records. */
  method ReadVersionAndRecords(s: Stream, ghost want: seq<Node>) returns (is64: bool, ok: bool, children: seq<Node>)
    requires s.base == 0 && s.at == HEADER_SIZE
    modifies s
    ensures is64 <==> LittleEndian(s.data, HEADER_SIZE, VERSION_SIZE) >= VERSION_64BIT
    ensures s.length <= HEADER_SIZE + VERSION_SIZE ==> ok && children == []
    ensures TopLevelRead(s.data, is64, HEADER_SIZE + VERSION_SIZE, s.length, children)
    ensures ok <==> TopLevelEnds(s.data, is64, HEADER_SIZE + VERSION_SIZE, s.length, children)
    ensures PlainRecords(s.data, is64, HEADER_SIZE + VERSION_SIZE, s.length, want) ==> ok && children == want
  {
    var version := s.ConsumeWord(VERSION_SIZE);
    is64 := version >= VERSION_64BIT;
    ok, children := ReadTopLevel(s, is64, want);
  }

  /**
   * The top-level records of a file, read until the stream runs out or a
   * record terminates the list; `false` on a malformed record, the one
   * after those returned.
   */
  method ReadTopLevel(s: Stream, is64: bool, ghost want: seq<Node>) returns (ok: bool, children: seq<Node>)
    requires s.base == 0
    modifies s
    ensures !old(s.IsValid()) ==> ok && children == []
    ensures TopLevelRead(s.data, is64, old(s.at), s.length, children)
    ensures ok <==> TopLevelEnds(s.data, is64, old(s.at), s.length, children)
    ensures PlainRecords(s.data, is64, old(s.at), s.length, want) ==> ok && children == want
  {
    ghost var start := s.at;
    ghost var plain := PlainRecords(s.data, is64, start, s.length, want);
    ghost var rest := want;
    children := [];
    while s.IsValid()
      invariant !old(s.IsValid()) ==> s.at == old(s.at) && children == []
      invariant TopLevelRead(s.data, is64, start, s.length, children)
      invariant RecordOffset(s.data, 0, is64, start, |children|) == s.at
      invariant plain ==> want == children + rest && PlainRecords(s.data, is64, s.at, s.length, rest)
      decreases s.Remaining()
    {
      ghost var w := if plain && rest != [] then rest[0] else Node([], [], []);
      if plain {
        PlainRecordsStep(s.data, is64, s.at, s.length, children, rest);
      }
      var status, next := ReadListedRecord(s, is64, start, children, w);
      if status == Error {
        return false, children;
      }
      if status == Terminate {
        assert plain ==> rest == [];
        break;
      }
      children := next;
      if plain {
        rest := rest[1..];
      }
    }
    ok := true;
    assert children + [] == children;
  }

  /** The next top-level record, after the records `children` read from `start`, is appended to them. */
  method ReadListedRecord(s: Stream, is64: bool, ghost start: nat, children: seq<Node>, ghost want: Node) returns (status: NodeStatus, next: seq<Node>)
    requires s.base == 0 && s.IsValid()
    requires TopLevelRead(s.data, is64, start, s.length, children)
    requires RecordOffset(s.data, 0, is64, start, |children|) == s.at
    modifies s
    ensures status == Terminate <==> EndOffsetAt(s.data, old(s.at), is64) == 0
    ensures status != Error ==> s.at > old(s.at)
    ensures status == Success ==> TopLevelRead(s.data, is64, start, s.length, next)
    ensures status == Success ==> RecordOffset(s.data, 0, is64, start, |next|) == s.at
    ensures status != Error ==> s.at == NextRecord(s.data, 0, old(s.at), is64)
    ensures PlainNode(s.data, 0, old(s.at), is64, s.length, want) ==> status == Success && next == children + [want]
  {
    ghost var at := s.at;
    var child;
    status, child := ReadTopLevelRecord(s, is64, want);
    next := children;
    if status == Success {
      TopLevelReadSnoc(s.data, is64, start, s.length, children, at, child);
      RecordOffsetNext(s.data, 0, is64, start, |children|, at);
      next := children + [child];
    }
  }
}
