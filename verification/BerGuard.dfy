/** The framing guard in front of the LDAP library.

    Every response is checked as definite-length BER (section 5.1 of RFC 4511) under byte, depth and
    element budgets before the library may allocate for it; accepted frames are then re-served. */
module BerGuard {
  import opened Base

  type Byte = x: int | 0 <= x < 256

  const MAX_BYTES := 32 * 1024 * 1024
  const MAX_PACKET := 2 * 1024 * 1024
  const MAX_DEPTH := 16
  const MAX_ELEMENTS := 16384

  /** All five low bits set: the tag continues in further octets. */
  predicate MultiOctetTag(tag: Byte) {
    tag in {0x1f, 0x3f, 0x5f, 0x7f, 0x9f, 0xbf, 0xdf, 0xff}
  }

  /** Bit 0x20 set. */
  predicate Constructed(tag: Byte) {
    0x20 <= tag < 0x40 || 0x60 <= tag < 0x80 || 0xa0 <= tag < 0xc0 || 0xe0 <= tag
  }

  /** Bit 0x80 set. */
  predicate LongForm(octet: Byte) { octet >= 0x80 }

  /** The predicates above are the bit tests of the tag and length octets. */
  lemma OctetBits(octet: Byte)
    ensures MultiOctetTag(octet) <==> octet % 32 == 31
    ensures Constructed(octet) <==> octet / 32 % 2 == 1
    ensures LongForm(octet) <==> octet / 128 == 1
  {
  }

  // ----- length fields

  function BigEndian(octets: seq<Byte>): (n: nat) {
    if octets == [] then 0 else BigEndian(octets[..|octets| - 1]) * 256 + octets[|octets| - 1]
  }

  /** head is a definite length field for n: one short octet, or a count of one to four octets
      followed by that many octets of n. The decoder stops early on a value whose leading octets
      already exceed the packet bound divided by 256, which refuses exactly the values above
      MAX_PACKET + 255. */
  predicate Denotes(head: seq<Byte>, n: int) {
    && head != []
    && (if !LongForm(head[0]) then |head| == 1 && n == head[0]
        else && 1 <= head[0] - 128 <= 4 && |head| == head[0] - 127
             && n == BigEndian(head[1..]) && n <= MAX_PACKET + 255)
  }

  /** Length and header size of the element that data starts with. */
  function BerLength(data: seq<Byte>): (r: Option<(nat, nat)>)
    ensures r.Some? ==> 2 <= r.value.1 <= |data|
  {
    if |data| < 2 || MultiOctetTag(data[0]) then None
    else if !LongForm(data[1]) then Some((data[1], 2))
    else
      var count := data[1] - 128;
      if count < 1 || count > 4 || |data| < 2 + count then None
      else
        var n := BigEndian(data[2..2 + count]);
        if n > MAX_PACKET + 255 then None else Some((n, 2 + count))
  }

  /** The decoder reads exactly the length fields above. */
  lemma BerLengthExact(data: seq<Byte>, n: int, offset: int)
    ensures (BerLength(data).Some? && BerLength(data).value == (n, offset)) <==>
            (2 <= offset <= |data| && !MultiOctetTag(data[0]) && Denotes(data[1..offset], n))
  {
    if 2 <= offset <= |data| {
      assert data[1..offset][0] == data[1];
      assert data[1..offset][1..] == data[2..offset];
    }
  }

  /** The early stop does not enforce the packet bound itself: this field is read as MAX_PACKET + 255. */
  lemma LengthAbovePacketBound()
    ensures Denotes([131, 32, 0, 255], MAX_PACKET + 255)
  {
    var octets: seq<Byte> := [32, 0, 255];
    var head: seq<Byte> := [131, 32, 0, 255];
    assert head[1..] == octets;
    var one: seq<Byte> := [32];
    var two: seq<Byte> := [32, 0];
    assert octets[..2] == two && two[..1] == one && one[..0] == [];
    assert BigEndian(one) == 32;
    assert BigEndian(two) == 8192;
    assert BigEndian(octets) == 8192 * 256 + 255;
  }

  lemma PrefixGrows(octets: seq<Byte>, k: nat)
    requires k < |octets|
    ensures BigEndian(octets[..k]) <= BigEndian(octets[..|octets| - 1])
    decreases |octets| - k
  {
    if k < |octets| - 1 {
      PrefixGrows(octets, k + 1);
      assert octets[..k + 1][..k] == octets[..k];
    }
  }

  /** The accumulating loop of the length decoder. Its early stop bounds what it accumulates: a decoded
      length is what its octets denote, and overshoots the packet bound by less than one octet. */
  method DirectoryBERLength(data: seq<Byte>) returns (r: Option<(nat, nat)>)
    ensures r == BerLength(data)
    ensures r.Some? ==> r.value.0 <= MAX_PACKET + 255 && Denotes(data[1..r.value.1], r.value.0)
  {
    if |data| < 2 || MultiOctetTag(data[0]) { return None; }
    if !LongForm(data[1]) {
      BerLengthExact(data, data[1], 2);
      return Some((data[1], 2));
    }
    var count := data[1] - 128;
    if count < 1 || count > 4 || |data| < 2 + count { return None; }
    var octets := data[2..2 + count];
    var length := 0;
    for i := 0 to count
      invariant length == BigEndian(octets[..i])
      invariant i > 0 ==> BigEndian(octets[..i - 1]) <= MAX_PACKET / 256
    {
      if length > MAX_PACKET / 256 {
        PrefixGrows(octets, i);
        return None;
      }
      assert octets[..i + 1][..i] == octets[..i];
      length := length * 256 + octets[i];
    }
    assert octets[..count] == octets;
    BerLengthExact(data, length, 2 + count);
    return Some((length, 2 + count));
  }

  // ----- element trees

  /** A sequence of elements, each a primitive body or a constructed sequence of elements. */
  datatype Forest =
    | Nil
    | Leaf(tag: Byte, head: seq<Byte>, body: seq<Byte>, rest: Forest)
    | Tree(tag: Byte, head: seq<Byte>, children: Forest, rest: Forest)

  function Encode(f: Forest): seq<Byte> {
    match f
    case Nil => []
    case Leaf(tag, head, body, rest) => [tag] + head + body + Encode(rest)
    case Tree(tag, head, children, rest) => [tag] + head + Encode(children) + Encode(rest)
  }

  predicate WellFormed(f: Forest) {
    match f
    case Nil => true
    case Leaf(tag, head, body, rest) =>
      !MultiOctetTag(tag) && !Constructed(tag) && Denotes(head, |body|) && WellFormed(rest)
    case Tree(tag, head, children, rest) =>
      !MultiOctetTag(tag) && Constructed(tag) && Denotes(head, |Encode(children)|) && WellFormed(children)
        && WellFormed(rest)
  }

  function Count(f: Forest): nat {
    match f
    case Nil => 0
    case Leaf(_, _, _, rest) => 1 + Count(rest)
    case Tree(_, _, children, rest) => 1 + Count(children) + Count(rest)
  }

  function Max(a: nat, b: nat): nat { if a < b then b else a }

  function Height(f: Forest): nat {
    match f
    case Nil => 0
    case Leaf(_, _, _, rest) => Height(rest)
    case Tree(_, _, children, rest) => Max(1 + Height(children), Height(rest))
  }

  // ----- the validator

  /** The element count after validating data, or None if it is refused. */
  function Validate(data: seq<Byte>, depth: nat, nodes: nat): (r: Option<nat>)
    decreases |data|
  {
    if depth > MAX_DEPTH then None
    else if data == [] then Some(nodes)
    else if nodes + 1 > MAX_ELEMENTS then None
    else
      var header := BerLength(data);
      if header.None? then None
      else
        var (length, offset) := header.value;
        if length > |data| - offset then None
        else
          var inner := if Constructed(data[0])
            then Validate(data[offset..offset + length], depth + 1, nodes + 1) else Some(nodes + 1);
          if inner.None? then None else Validate(data[offset + length..], depth, inner.value)
  }

  method ValidateDirectoryBER(packet: seq<Byte>, depth: nat, count: nat) returns (r: Option<nat>)
    ensures r == Validate(packet, depth, count)
    decreases |packet|
  {
    if depth > MAX_DEPTH { return None; }
    var data, nodes: nat := packet, count;
    while |data| > 0
      invariant |data| <= |packet|
      invariant Validate(packet, depth, count) == Validate(data, depth, nodes)
      decreases |data|
    {
      nodes := nodes + 1;
      if nodes > MAX_ELEMENTS { return None; }
      var header := DirectoryBERLength(data);
      if header.None? { return None; }
      var (length, offset) := header.value;
      if length > |data| - offset { return None; }
      if Constructed(data[0]) {
        var inner := ValidateDirectoryBER(data[offset..offset + length], depth + 1, nodes);
        if inner.None? { return None; }
        nodes := inner.value;
      }
      data := data[offset + length..];
    }
    return Some(nodes);
  }

  lemma ElementHead(tag: Byte, head: seq<Byte>, body: seq<Byte>, rest: seq<Byte>)
    requires !MultiOctetTag(tag) && Denotes(head, |body|)
    ensures var data := [tag] + head + body + rest; var offset := 1 + |head|;
      && BerLength(data) == Some((|body|, offset))
      && data[offset..offset + |body|] == body && data[offset + |body|..] == rest
  {
    var data := [tag] + head + body + rest;
    assert data[1..1 + |head|] == head;
    BerLengthExact(data, |body|, 1 + |head|);
  }

  /** What validating an element and then the rest amounts to. */
  function AfterElement(tag: Byte, body: seq<Byte>, rest: seq<Byte>, depth: nat, nodes: nat): Option<nat> {
    var inner := if Constructed(tag) then Validate(body, depth + 1, nodes + 1) else Some(nodes + 1);
    if inner.None? then None else Validate(rest, depth, inner.value)
  }

  lemma ValidateElement(tag: Byte, head: seq<Byte>, body: seq<Byte>, rest: seq<Byte>, depth: nat, nodes: nat)
    requires !MultiOctetTag(tag) && Denotes(head, |body|)
    requires depth <= MAX_DEPTH && nodes < MAX_ELEMENTS
    ensures Validate([tag] + head + body + rest, depth, nodes) == AfterElement(tag, body, rest, depth, nodes)
  {
    var data, offset := [tag] + head + body + rest, 1 + |head|;
    ElementHead(tag, head, body, rest);
    assert data[0] == tag && data != [] && |body| <= |data| - offset;
  }

  /** Validating the encoding of f yields exactly its element count. */
  ghost predicate Counted(f: Forest, depth: nat, nodes: nat) {
    Validate(Encode(f), depth, nodes) == Some(nodes + Count(f))
  }

  lemma LeafCounted(tag: Byte, head: seq<Byte>, body: seq<Byte>, rest: Forest, depth: nat, nodes: nat)
    requires !MultiOctetTag(tag) && !Constructed(tag) && Denotes(head, |body|)
    requires depth <= MAX_DEPTH && nodes < MAX_ELEMENTS && Counted(rest, depth, nodes + 1)
    ensures Counted(Leaf(tag, head, body, rest), depth, nodes)
  {
    ValidateElement(tag, head, body, Encode(rest), depth, nodes);
  }

  lemma TreeCounted(tag: Byte, head: seq<Byte>, children: Forest, rest: Forest, depth: nat, nodes: nat)
    requires !MultiOctetTag(tag) && Constructed(tag) && Denotes(head, |Encode(children)|)
    requires depth <= MAX_DEPTH && nodes < MAX_ELEMENTS
    requires Counted(children, depth + 1, nodes + 1) && Counted(rest, depth, nodes + 1 + Count(children))
    ensures Counted(Tree(tag, head, children, rest), depth, nodes)
  {
    ValidateElement(tag, head, Encode(children), Encode(rest), depth, nodes);
  }

  /** A well-formed tree that fits the budgets from this depth and count on. */
  ghost predicate Within(f: Forest, depth: nat, nodes: nat) {
    WellFormed(f) && depth + Height(f) <= MAX_DEPTH && nodes + Count(f) <= MAX_ELEMENTS
  }

  lemma WithinLeaf(f: Forest, depth: nat, nodes: nat)
    requires Within(f, depth, nodes) && f.Leaf?
    ensures Within(f.rest, depth, nodes + 1)
    ensures !MultiOctetTag(f.tag) && !Constructed(f.tag) && Denotes(f.head, |f.body|) && depth <= MAX_DEPTH
    ensures nodes < MAX_ELEMENTS
  {
  }

  lemma WithinTree(f: Forest, depth: nat, nodes: nat)
    requires Within(f, depth, nodes) && f.Tree?
    ensures Within(f.children, depth + 1, nodes + 1) && Within(f.rest, depth, nodes + 1 + Count(f.children))
    ensures !MultiOctetTag(f.tag) && Constructed(f.tag) && Denotes(f.head, |Encode(f.children)|) && depth <= MAX_DEPTH
    ensures nodes < MAX_ELEMENTS
  {
  }

  /** Completeness: every tree within the budgets is accepted, and its elements are counted. */
  lemma {:induction false} TreesAreAccepted(f: Forest, depth: nat, nodes: nat)
    requires Within(f, depth, nodes)
    ensures Counted(f, depth, nodes)
  {
    match f
    case Nil =>
    case Leaf(tag, head, body, rest) =>
      WithinLeaf(f, depth, nodes);
      TreesAreAccepted(rest, depth, nodes + 1);
      LeafCounted(tag, head, body, rest, depth, nodes);
    case Tree(tag, head, children, rest) =>
      WithinTree(f, depth, nodes);
      TreesAreAccepted(children, depth + 1, nodes + 1);
      TreesAreAccepted(rest, depth, nodes + 1 + Count(children));
      TreeCounted(tag, head, children, rest, depth, nodes);
  }

  /** Accepted non-empty bytes start with an element whose parts were accepted in turn. */
  lemma FirstElement(data: seq<Byte>, depth: nat, nodes: nat)
    returns (head: seq<Byte>, body: seq<Byte>, rest: seq<Byte>, inner: nat)
    requires data != [] && Validate(data, depth, nodes).Some?
    ensures data == [data[0]] + head + body + rest && !MultiOctetTag(data[0]) && Denotes(head, |body|)
    ensures depth <= MAX_DEPTH && nodes < MAX_ELEMENTS
    ensures if Constructed(data[0]) then Validate(body, depth + 1, nodes + 1) == Some(inner) else inner == nodes + 1
    ensures Validate(rest, depth, inner) == Validate(data, depth, nodes)
  {
    var (length, offset) := BerLength(data).value;
    BerLengthExact(data, length, offset);
    head, body, rest := data[1..offset], data[offset..offset + length], data[offset + length..];
    inner := if Constructed(data[0]) then Validate(body, depth + 1, nodes + 1).value else nodes + 1;
  }

  ghost predicate EncodesTree(data: seq<Byte>, f: Forest, depth: nat, nodes: nat) {
    Encode(f) == data && Within(f, depth, nodes)
  }

  lemma LeafEncodes(tag: Byte, head: seq<Byte>, body: seq<Byte>, tail: seq<Byte>, rest: Forest, depth: nat, nodes: nat)
    requires !MultiOctetTag(tag) && !Constructed(tag) && Denotes(head, |body|)
    requires EncodesTree(tail, rest, depth, nodes + 1)
    ensures EncodesTree([tag] + head + body + tail, Leaf(tag, head, body, rest), depth, nodes)
  {
  }

  lemma TreeEncodes(tag: Byte, head: seq<Byte>, body: seq<Byte>, tail: seq<Byte>, children: Forest, rest: Forest,
      depth: nat, nodes: nat)
    requires !MultiOctetTag(tag) && Constructed(tag) && Denotes(head, |body|)
    requires EncodesTree(body, children, depth + 1, nodes + 1)
    requires EncodesTree(tail, rest, depth, nodes + 1 + Count(children))
    ensures EncodesTree([tag] + head + body + tail, Tree(tag, head, children, rest), depth, nodes)
  {
  }

  /** Soundness: accepted bytes are the encoding of a tree within the budgets. */
  lemma {:induction false} AcceptedIsTree(data: seq<Byte>, depth: nat, nodes: nat) returns (f: Forest)
    requires nodes <= MAX_ELEMENTS && Validate(data, depth, nodes).Some?
    ensures EncodesTree(data, f, depth, nodes)
    ensures Validate(data, depth, nodes).value == nodes + Count(f)
    decreases |data|
  {
    if data == [] { return Nil; }
    var head, body, tail, inner := FirstElement(data, depth, nodes);
    if Constructed(data[0]) {
      var children := AcceptedIsTree(body, depth + 1, nodes + 1);
      var rest := AcceptedIsTree(tail, depth, inner);
      f := Tree(data[0], head, children, rest);
      TreeEncodes(data[0], head, body, tail, children, rest, depth, nodes);
    } else {
      var rest := AcceptedIsTree(tail, depth, nodes + 1);
      f := Leaf(data[0], head, body, rest);
      LeafEncodes(data[0], head, body, tail, rest, depth, nodes);
    }
  }

  /** The validator accepts exactly the encodings of element trees within depth and element budgets. */
  lemma ValidateExact(data: seq<Byte>, depth: nat, nodes: nat)
    requires nodes <= MAX_ELEMENTS
    ensures Validate(data, depth, nodes).Some? <==> exists f :: EncodesTree(data, f, depth, nodes)
  {
    if Validate(data, depth, nodes).Some? {
      var f := AcceptedIsTree(data, depth, nodes);
      assert EncodesTree(data, f, depth, nodes);
    }
    if f :| EncodesTree(data, f, depth, nodes) {
      TreesAreAccepted(f, depth, nodes);
    }
  }

  // ----- frames

  /** One whole LDAP message: a single constructed SEQUENCE within all bounds. */
  ghost predicate IsMessage(frame: seq<Byte>) {
    |frame| <= MAX_PACKET && exists f :: EncodesTree(frame, f, 0, 0) && f.Tree? && f.rest.Nil? && f.tag == 0x30
  }

  ghost predicate EncodesMessage(frame: seq<Byte>, f: Forest) {
    && f.Tree? && f.tag == 48 && f.rest == Nil && WellFormed(f) && Encode(f) == frame
    && Count(f) <= 16_384 && Height(f) <= 16
  }

  /** In numbers: at most 2 MiB, at most 16384 elements, and 16 levels of nesting. */
  lemma MessageLimits(frame: seq<Byte>)
    ensures IsMessage(frame) <==> |frame| <= 2_097_152 && exists f :: EncodesMessage(frame, f)
  {
    if IsMessage(frame) {
      var f :| EncodesTree(frame, f, 0, 0) && f.Tree? && f.rest.Nil? && f.tag == 0x30;
      assert EncodesMessage(frame, f);
    }
    if f :| EncodesMessage(frame, f) { assert EncodesTree(frame, f, 0, 0); }
  }

  /** Size of the frame whose header input starts with, if that header is acceptable. */
  function Announced(input: seq<Byte>, budget: int): (r: Option<nat>)
    ensures r.Some? ==> 2 <= r.value <= MAX_PACKET && r.value <= budget
  {
    var header := BerLength(input);
    if header.None? || input[0] != 0x30 then None
    else
      var size := header.value.1 + header.value.0;
      if size > MAX_PACKET || size > budget then None else Some(size)
  }

  /** The frame that input starts with, if the guard lets it through. */
  function FrameOf(input: seq<Byte>, budget: int): Option<seq<Byte>> {
    var size := Announced(input, budget);
    if size.None? || size.value > |input| || Validate(input[..size.value], 0, 0).None? then None
    else Some(input[..size.value])
  }

  lemma NonEmpty(f: Forest)
    ensures Encode(f) == [] <==> f.Nil?
  {
  }

  /** An encoding whose first element spans it all has just that element. */
  lemma SingleElement(f: Forest, size: nat)
    requires WellFormed(f) && Encode(f) != [] && Encode(f)[0] == 0x30
    requires BerLength(Encode(f)).Some? && BerLength(Encode(f)).value.0 + BerLength(Encode(f)).value.1 == |Encode(f)|
    ensures f.Tree? && f.tag == 0x30 && f.rest.Nil?
  {
    match f
    case Nil =>
    case Leaf(tag, head, body, rest) =>
    case Tree(tag, head, children, rest) =>
      ElementHead(tag, head, Encode(children), Encode(rest));
      NonEmpty(rest);
  }

  /** The header decides the same on any longer input. */
  lemma HeaderOfPrefix(m: seq<Byte>, input: seq<Byte>)
    requires m <= input && BerLength(m).Some?
    ensures BerLength(input) == BerLength(m)
  {
    var offset := BerLength(m).value.1;
    assert m[2..offset] == input[2..offset];
  }

  lemma HeaderOfInput(input: seq<Byte>, size: nat)
    requires BerLength(input).Some? && BerLength(input).value.1 <= size <= |input|
    ensures BerLength(input[..size]) == BerLength(input)
  {
    var offset := BerLength(input).value.1;
    assert input[..size][2..offset] == input[2..offset];
  }

  lemma FrameIsMessage(input: seq<Byte>, budget: int, m: seq<Byte>)
    requires FrameOf(input, budget) == Some(m)
    ensures m <= input && IsMessage(m) && 0 < |m| <= budget
  {
    HeaderOfInput(input, |m|);
    var f := AcceptedIsTree(m, 0, 0);
    SingleElement(f, |m|);
  }

  lemma MessageHeader(m: seq<Byte>, f: Forest)
    requires EncodesTree(m, f, 0, 0) && f.Tree? && f.rest.Nil?
    ensures m != [] && m[0] == f.tag
    ensures BerLength(m).Some? && BerLength(m).value.0 + BerLength(m).value.1 == |m|
  {
    ElementHead(f.tag, f.head, Encode(f.children), Encode(f.rest));
  }

  lemma MessageIsFrame(input: seq<Byte>, budget: int, m: seq<Byte>)
    requires m <= input && IsMessage(m) && |m| <= budget
    ensures FrameOf(input, budget) == Some(m)
  {
    MessageAnnounces(m);
    HeaderOfPrefix(m, input);
    assert input[..|m|] == m;
  }

  /** A message announces its own size and is accepted. */
  lemma MessageAnnounces(m: seq<Byte>)
    requires IsMessage(m)
    ensures BerLength(m).Some? && BerLength(m).value.0 + BerLength(m).value.1 == |m| && m[0] == 0x30
    ensures Validate(m, 0, 0).Some?
  {
    var f :| EncodesTree(m, f, 0, 0) && f.Tree? && f.rest.Nil? && f.tag == 0x30;
    MessageHeader(m, f);
    TreesAreAccepted(f, 0, 0);
  }

  /** A frame is let through if and only if the input starts with a whole message within the budget. */
  lemma FrameExact(input: seq<Byte>, budget: int, m: seq<Byte>)
    ensures FrameOf(input, budget) == Some(m) <==> m <= input && IsMessage(m) && |m| <= budget
  {
    if FrameOf(input, budget) == Some(m) { FrameIsMessage(input, budget, m); }
    if m <= input && IsMessage(m) && |m| <= budget { MessageIsFrame(input, budget, m); }
  }

  /** Reads exactly n bytes, or drains the input and fails. */
  method ReadFull(input: seq<Byte>, n: nat) returns (r: Option<seq<Byte>>, rest: seq<Byte>)
    ensures if |input| < n then r.None? && rest == [] else r == Some(input[..n]) && rest == input[n..]
  {
    if |input| < n { return None, []; }
    return Some(input[..n]), input[n..];
  }

  /** Tag and length octets only. */
  method ReadHeader(input: seq<Byte>, budget: int) returns (h: Option<seq<Byte>>, rest: seq<Byte>)
    ensures |rest| <= |input|
    ensures h.None? ==> Announced(input, budget).None? && rest == input[|input| - |rest|..]
    ensures h.Some? ==>
      h.value + rest == input && input != [] && input[0] == 0x30 && BerLength(h.value) == BerLength(input)
    ensures h.Some? && BerLength(input).Some? ==> |h.value| == BerLength(input).value.1
  {
    if budget < 2 { return None, input; }
    var start, afterTag := ReadFull(input, 2);
    if start.None? { return None, afterTag; }
    if input[0] != 0x30 { return None, afterTag; }
    if !LongForm(input[1]) { return start, afterTag; }
    var count := input[1] - 0x80;
    if count < 1 || count > 4 || budget < 2 + count { return None, afterTag; }
    var octets, afterLength := ReadFull(afterTag, count);
    if octets.None? { return None, afterLength; }
    h, rest := Some(start.value + octets.value), afterLength;
    assert h.value == input[..2 + count];
    assert h.value[2..2 + count] == input[2..2 + count];
  }

  /** Header, then the decision whether its body may be read. */
  method ReadAnnouncement(input: seq<Byte>, budget: int) returns (size: Option<nat>, header: seq<Byte>, rest: seq<Byte>)
    ensures size == Announced(input, budget)
    ensures size.Some? ==> header + rest == input && |header| <= size.value
    ensures |rest| <= |input| && rest == input[|input| - |rest|..]
  {
    var h, afterHeader := ReadHeader(input, budget);
    if h.None? { return None, [], afterHeader; }
    var decoded := DirectoryBERLength(h.value);
    if decoded.None? { return None, [], afterHeader; }
    var (length, offset) := decoded.value;
    if length > MAX_PACKET - offset || length > budget - offset { return None, [], afterHeader; }
    return Some(offset + length), h.value, afterHeader;
  }

  /** Header first, then the body it announces, then validation; a failure may leave input half read. */
  method ReadDirectoryFrame(input: seq<Byte>, budget: int) returns (r: Option<seq<Byte>>, rest: seq<Byte>)
    ensures r == FrameOf(input, budget)
    ensures r.Some? ==> input == r.value + rest
    ensures |rest| <= |input| && rest == input[|input| - |rest|..]
  {
    var size, header, afterHeader := ReadAnnouncement(input, budget);
    if size.None? { return None, afterHeader; }
    var body, afterBody := ReadFull(afterHeader, size.value - |header|);
    if body.None? { return None, afterBody; }
    var frame := header + body.value;
    assert frame == input[..size.value];
    var nodes := ValidateDirectoryBER(frame, 0, 0);
    if nodes.None? { return None, afterBody; }
    return Some(frame), afterBody;
  }

  // ----- the buffered connection

  function Concat(frames: seq<seq<Byte>>): seq<Byte> {
    if frames == [] then [] else Concat(frames[..|frames| - 1]) + frames[|frames| - 1]
  }

  lemma ConcatAppend(frames: seq<seq<Byte>>, frame: seq<Byte>, rest: seq<Byte>)
    ensures Concat(frames + [frame]) == Concat(frames) + frame
    ensures Concat(frames) + (frame + rest) == Concat(frames + [frame]) + rest
  {
    assert (frames + [frame])[..|frames|] == frames;
  }

  /** What has been handed out plus what is buffered is exactly the validated frames, all of them
      whole messages, and together with the remaining budget they make up the byte limit. Until a
      read fails, the frames are also exactly what has been taken from the wire. */
  ghost predicate Balanced(
    source: seq<Byte>, input: seq<Byte>, frames: seq<seq<Byte>>, delivered: seq<Byte>, pending: seq<Byte>,
      remaining: int, failed: bool)
  {
    && delivered + pending == Concat(frames)
    && remaining >= 0 && remaining + |Concat(frames)| == MAX_BYTES
    && (forall i :: 0 <= i < |frames| ==> IsMessage(frames[i]))
    && (!failed ==> source == Concat(frames) + input)
  }

  lemma BalancedAfterFrame(
    source: seq<Byte>, input: seq<Byte>, frames: seq<seq<Byte>>, delivered: seq<Byte>, remaining: int, failed: bool,
    frame: seq<Byte>, rest: seq<Byte>)
    requires Balanced(source, input, frames, delivered, [], remaining, failed)
    requires IsMessage(frame) && |frame| <= remaining && input == frame + rest
    ensures Balanced(source, rest, frames + [frame], delivered, frame, remaining - |frame|, failed)
  {
    ConcatAppend(frames, frame, rest);
  }

  lemma BalancedAfterCopy(
    source: seq<Byte>, input: seq<Byte>, frames: seq<seq<Byte>>, delivered: seq<Byte>, pending: seq<Byte>,
      remaining: int, failed: bool, n: nat)
    requires Balanced(source, input, frames, delivered, pending, remaining, failed) && n <= |pending|
    ensures Balanced(source, input, frames, delivered + pending[..n], pending[n..], remaining, failed)
    ensures delivered + pending[..n] <= Concat(frames) && |delivered + pending[..n]| <= MAX_BYTES
  {
    assert delivered + pending == (delivered + pending[..n]) + pending[n..];
  }

  /** A connection that re-serves validated frames piecemeal. */
  class BoundedConnection {
    var remaining: int
    var pending: seq<Byte>
    var input: seq<Byte>

    ghost const source: seq<Byte>
    ghost var frames: seq<seq<Byte>>
    ghost var delivered: seq<Byte>
    ghost var failed: bool

    ghost predicate Valid()
      reads this
    {
      Balanced(source, input, frames, delivered, pending, remaining, failed)
    }

    constructor (wire: seq<Byte>)
      ensures Valid() && source == wire && input == wire && frames == [] && delivered == [] && !failed
    {
      remaining, pending, input := MAX_BYTES, [], wire;
      source, frames, delivered, failed := wire, [], [], false;
    }

    /** Validates and buffers the next frame. */
    method Refill() returns (ok: bool)
      requires Valid() && pending == []
      modifies this
      ensures Valid() && delivered == old(delivered)
      ensures ok == FrameOf(old(input), old(remaining)).Some?
      ensures ok ==> pending != [] && frames == old(frames) + [pending] && failed == old(failed)
      ensures !ok ==> failed && pending == [] && frames == old(frames) && remaining == old(remaining)
    {
      var frame, rest := ReadDirectoryFrame(input, remaining);
      if frame.None? {
        input, failed := rest, true;
        return false;
      }
      FrameIsMessage(input, remaining, frame.value);
      BalancedAfterFrame(source, input, frames, delivered, remaining, failed, frame.value, rest);
      input := rest;
      remaining := remaining - |frame.value|;
      pending := frame.value;
      frames := frames + [frame.value];
      return true;
    }

    /** Hands out up to size bytes of the buffered frame. */
    method Serve(size: nat) returns (chunk: seq<Byte>)
      requires Valid() && pending != [] && size > 0
      modifies this`pending, this`delivered
      ensures Valid() && chunk != [] && delivered == old(delivered) + chunk
      ensures chunk == old(pending)[..|chunk|] && (|chunk| == size || chunk == old(pending)) && |chunk| <= size
      ensures delivered <= Concat(frames) && |delivered| <= MAX_BYTES
    {
      var n := if size < |pending| then size else |pending|;
      BalancedAfterCopy(source, input, frames, delivered, pending, remaining, failed, n);
      chunk := pending[..n];
      delivered := delivered + chunk;
      pending := pending[n..];
    }

    /** Reads up to size bytes. */
    method Read(size: nat) returns (r: Option<seq<Byte>>)
      requires Valid()
      modifies this
      ensures Valid()
      ensures old(frames) <= frames && |frames| <= |old(frames)| + 1
      ensures delivered == old(delivered) + (if r.Some? then r.value else [])
      ensures delivered <= Concat(frames) && |delivered| <= MAX_BYTES
      ensures r.Some? ==> |r.value| <= size && (size > 0 ==> r.value != []) && failed == old(failed)
      ensures r.Some? && |r.value| < size ==> pending == []
      ensures r.None? ==> failed && frames == old(frames) && remaining == old(remaining)
      ensures r.None? <==> size > 0 && old(pending) == [] && FrameOf(old(input), old(remaining)).None?
    {
      BalancedAfterCopy(source, input, frames, delivered, pending, remaining, failed, 0);
      if size == 0 { return Some([]); }
      if pending == [] {
        var ok := Refill();
        if !ok { return None; }
      }
      var chunk := Serve(size);
      return Some(chunk);
    }
  }
}
