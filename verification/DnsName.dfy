/** Domain names of section 4.1.4 of RFC 1035, with a bound on how many compression pointers are followed. */
module DnsName {
  import opened Bytes

  const MAX_JUMPS: nat := 16

  datatype NameError =
    | Truncated | PointerTruncated | PointerOutOfRange | PointerLoop | UnsupportedForm | LabelTruncated

  /** The labels of a name, and the offset just past it where it was read. */
  datatype NameResult = Name(labels: seq<seq<byte>>, end: nat) | Failed(error: NameError)

  function Target(message: seq<byte>, pos: nat): nat
    requires pos + 1 < |message|
  {
    var high: int, low: int := message[pos], message[pos + 1];
    256 * (high % 64) + low
  }

  // ---------------------------------------------------------------------
  // What a name is

  /** How a name is laid out: labels, pointers to where it goes on, and the root. */
  datatype Shape = Root | Label(rest: Shape) | Pointer(rest: Shape) {
    function Jumps(): nat {
      match this
      case Root => 0
      case Label(rest) => rest.Jumps()
      case Pointer(rest) => 1 + rest.Jumps()
    }
  }

  /** A name of this shape starts at `pos`. */
  predicate Spells(message: seq<byte>, pos: nat, shape: Shape)
    decreases shape
  {
    && pos < |message|
    && match shape
       case Root => message[pos] == 0
       case Label(rest) =>
         0 < message[pos] < 64 && pos + 1 + message[pos] <= |message|
         && Spells(message, pos + 1 + message[pos], rest)
       case Pointer(rest) =>
         192 <= message[pos] && pos + 1 < |message| && Target(message, pos) < |message|
         && Spells(message, Target(message, pos), rest)
  }

  function Labels(message: seq<byte>, pos: nat, shape: Shape): seq<seq<byte>>
    requires Spells(message, pos, shape)
    decreases shape
  {
    match shape
    case Root => []
    case Label(rest) =>
      [message[pos + 1..pos + 1 + message[pos]]] + Labels(message, pos + 1 + message[pos], rest)
    case Pointer(rest) => Labels(message, Target(message, pos), rest)
  }

  /** Just past the first pointer, or past the root when there is none. */
  function End(message: seq<byte>, pos: nat, shape: Shape): (end: nat)
    requires Spells(message, pos, shape)
    ensures pos < end <= |message|
    decreases shape
  {
    match shape
    case Root => pos + 1
    case Label(rest) => End(message, pos + 1 + message[pos], rest)
    case Pointer(_) => pos + 2
  }

  // ---------------------------------------------------------------------
  // Reading a name

  /** Reading from `pos` with `jumps` pointers left to follow. */
  function Read(message: seq<byte>, pos: nat, jumps: nat): NameResult
    decreases jumps, |message| - pos
  {
    if pos >= |message| then Failed(Truncated)
    else
      var len := message[pos];
      if len >= 192 then
        if pos + 1 >= |message| then Failed(PointerTruncated)
        else if Target(message, pos) >= |message| then Failed(PointerOutOfRange)
        else if jumps == 0 then Failed(PointerLoop)
        else
          match Read(message, Target(message, pos), jumps - 1)
          case Name(labels, _) => Name(labels, pos + 2)
          case Failed(error) => Failed(error)
      else if len >= 64 then Failed(UnsupportedForm)
      else if len == 0 then Name([], pos + 1)
      else if pos + 1 + len > |message| then Failed(LabelTruncated)
      else
        match Read(message, pos + 1 + len, jumps)
        case Name(labels, end) => Name([message[pos + 1..pos + 1 + len]] + labels, end)
        case Failed(error) => Failed(error)
  }

  /** A result found at the cursor, seen from where the reader started. */
  function SeenFromStart(labels: seq<seq<byte>>, nextOffset: Option<nat>, r: NameResult): NameResult {
    match r
    case Failed(error) => Failed(error)
    case Name(more, end) => Name(labels + more, if nextOffset.Some? then nextOffset.value else end)
  }

  lemma LabelSeen(labels: seq<seq<byte>>, text: seq<byte>, nextOffset: Option<nat>, r: NameResult)
    ensures SeenFromStart(labels + [text], nextOffset, r)
            == SeenFromStart(labels, nextOffset, SeenFromStart([text], None, r))
  {
    assert r.Name? ==> labels + ([text] + r.labels) == labels + [text] + r.labels;
  }

  method ReadDnsName(message: seq<byte>, offset: nat) returns (r: NameResult)
    ensures r == Read(message, offset, MAX_JUMPS)
  {
    hide Target;
    var labels: seq<seq<byte>> := [];
    var cursor: nat, jumps := offset, 0;
    var nextOffset: Option<nat> := None;
    while true
      invariant jumps <= MAX_JUMPS
      invariant Read(message, offset, MAX_JUMPS)
                == SeenFromStart(labels, nextOffset, Read(message, cursor, MAX_JUMPS - jumps))
      decreases MAX_JUMPS - jumps, |message| - cursor
    {
      if cursor >= |message| {
        return Failed(Truncated);
      }
      var len := message[cursor];
      if len >= 192 {
        if cursor + 1 >= |message| {
          return Failed(PointerTruncated);
        }
        var pointer := Target(message, cursor);
        if pointer >= |message| {
          return Failed(PointerOutOfRange);
        }
        if nextOffset == None {
          nextOffset := Some(cursor + 2);
        }
        if jumps + 1 > MAX_JUMPS {
          return Failed(PointerLoop);
        }
        cursor, jumps := pointer, jumps + 1;
        continue;
      }
      if len >= 64 {
        return Failed(UnsupportedForm);
      }
      cursor := cursor + 1;
      if len == 0 {
        return Name(labels, if nextOffset.Some? then nextOffset.value else cursor);
      }
      if |message| < cursor + len {
        return Failed(LabelTruncated);
      }
      var text := message[cursor..cursor + len];
      LabelSeen(labels, text, nextOffset, Read(message, cursor + len, MAX_JUMPS - jumps));
      labels, cursor := labels + [text], cursor + len;
    }
  }

  // ---------------------------------------------------------------------
  // Reading finds exactly the names there are

  lemma {:induction false} ShapesAreUnique(message: seq<byte>, pos: nat, one: Shape, other: Shape)
    requires Spells(message, pos, one) && Spells(message, pos, other)
    ensures one == other
    decreases one
  {
    match one
    case Root =>
    case Label(rest) => ShapesAreUnique(message, pos + 1 + message[pos], rest, other.rest);
    case Pointer(rest) => ShapesAreUnique(message, Target(message, pos), rest, other.rest);
  }

  lemma {:induction false} ShapeIsRead(message: seq<byte>, pos: nat, shape: Shape, jumps: nat)
    requires Spells(message, pos, shape)
    ensures Read(message, pos, jumps)
            == if shape.Jumps() <= jumps then Name(Labels(message, pos, shape), End(message, pos, shape))
               else Failed(PointerLoop)
    decreases shape
  {
    match shape
    case Root =>
    case Label(rest) => ShapeIsRead(message, pos + 1 + message[pos], rest, jumps);
    case Pointer(rest) =>
      if jumps > 0 {
        ShapeIsRead(message, Target(message, pos), rest, jumps - 1);
      }
  }

  lemma {:induction false} ReadHasShape(message: seq<byte>, pos: nat, jumps: nat) returns (shape: Shape)
    requires Read(message, pos, jumps).Name?
    ensures Spells(message, pos, shape) && shape.Jumps() <= jumps
    decreases jumps, |message| - pos
  {
    if message[pos] == 0 {
      shape := Root;
    } else if message[pos] < 64 {
      var rest := ReadHasShape(message, pos + 1 + message[pos], jumps);
      shape := Label(rest);
    } else {
      var rest := ReadHasShape(message, Target(message, pos), jumps - 1);
      shape := Pointer(rest);
    }
  }

  /**
   For every byte string, reading succeeds exactly when a name with at most
   sixteen pointers starts at the offset, and then with that name's labels and end.
   */
  lemma ReadSucceedsExactlyOnNames(message: seq<byte>, offset: nat, labels: seq<seq<byte>>, end: nat)
    ensures Read(message, offset, MAX_JUMPS) == Name(labels, end)
            <==> exists shape :: Spells(message, offset, shape) && shape.Jumps() <= MAX_JUMPS
                                 && Labels(message, offset, shape) == labels && End(message, offset, shape) == end
  {
    if Read(message, offset, MAX_JUMPS) == Name(labels, end) {
      var shape := ReadHasShape(message, offset, MAX_JUMPS);
      ShapeIsRead(message, offset, shape, MAX_JUMPS);
    }
    if shape :| Spells(message, offset, shape) && shape.Jumps() <= MAX_JUMPS
                && Labels(message, offset, shape) == labels && End(message, offset, shape) == end {
      ShapeIsRead(message, offset, shape, MAX_JUMPS);
    }
  }

  /** A name that has a shape is refused only for having too many pointers. */
  lemma TooManyPointers(message: seq<byte>, offset: nat, shape: Shape)
    requires Spells(message, offset, shape)
    ensures Read(message, offset, MAX_JUMPS) == Failed(PointerLoop) <==> shape.Jumps() > 16
  {
    ShapeIsRead(message, offset, shape, MAX_JUMPS);
  }

  // ---------------------------------------------------------------------
  // Writing a name and reading it back

  predicate IsLabel(text: seq<byte>) {
    0 < |text| < 64
  }

  function LabelWire(text: seq<byte>): seq<byte>
    requires IsLabel(text)
  {
    [|text| as byte] + text
  }

  /** A name as the labels it starts with, ended by the root or by a pointer. */
  function Encode(labels: seq<seq<byte>>, last: seq<byte>): (wire: seq<byte>)
    requires forall l :: l in labels ==> IsLabel(l)
    ensures |last| <= |wire|
  {
    if labels == [] then last
    else LabelWire(labels[0]) + Encode(labels[1..], last)
  }

  lemma LabelIsRead(message: seq<byte>, pos: nat, text: seq<byte>, jumps: nat)
    requires IsLabel(text) && pos <= |message| && LabelWire(text) <= message[pos..]
    ensures Read(message, pos, jumps)
            == SeenFromStart([text], None, Read(message, pos + 1 + |text|, jumps))
  {
    var wire := LabelWire(text);
    assert message[pos] == message[pos..][0] == wire[0] == |text|;
    assert message[pos + 1..pos + 1 + |text|] == message[pos..][..1 + |text|][1..] == wire[1..] == text;
  }

  /**
   Wherever they stand in a message, encoded labels are read back, followed by
   whatever the last byte, a root, or the last two bytes, a pointer, lead to.
   */
  lemma {:induction false} EncodedNameIsRead(message: seq<byte>, pos: nat, labels: seq<seq<byte>>, last: seq<byte>,
                                             jumps: nat)
    requires forall l :: l in labels ==> IsLabel(l)
    requires pos <= |message| && Encode(labels, last) <= message[pos..]
    ensures var at := pos + |Encode(labels, last)| - |last|;
            && at <= |message| && last <= message[at..]
            && Read(message, pos, jumps) == SeenFromStart(labels, None, Read(message, at, jumps))
    decreases |labels|
  {
    hide Read;
    if labels == [] {
      var r := Read(message, pos, jumps);
      assert r.Name? ==> [] + r.labels == r.labels;
    } else {
      var text := labels[0];
      assert text in labels;
      var wire := LabelWire(text);
      var next := pos + |wire|;
      assert Encode(labels, last) == wire + Encode(labels[1..], last);
      assert message[pos..][..|wire|] == Encode(labels, last)[..|wire|] == wire;
      LabelIsRead(message, pos, text, jumps);
      assert message[next..] == message[pos..][|wire|..];
      assert Encode(labels, last)[|wire|..] == Encode(labels[1..], last);
      EncodedNameIsRead(message, next, labels[1..], last, jumps);
      var at := pos + |Encode(labels, last)| - |last|;
      var r := Read(message, at, jumps);
      assert r.Name? ==> [text] + (labels[1..] + r.labels) == labels + r.labels;
    }
  }

  /** Where the first `k` bytes of a written name end between two labels. */
  predicate BetweenLabels(labels: seq<seq<byte>>, k: nat) {
    k == 0 || (labels != [] && k > |labels[0]| && BetweenLabels(labels[1..], k - |labels[0]| - 1))
  }

  /** Of a name that is cut off at the end of the message the reader says where it is cut. */
  lemma {:induction false} CutNameIsTruncated(message: seq<byte>, pos: nat, labels: seq<seq<byte>>, jumps: nat)
    requires (forall l :: l in labels ==> IsLabel(l)) && pos <= |message|
    requires message[pos..] < Encode(labels, [0])
    ensures Read(message, pos, jumps)
            == Failed(if BetweenLabels(labels, |message| - pos) then Truncated else LabelTruncated)
    decreases |labels|
  {
    if |message| > pos {
      assert labels != [];
      hide Encode;
      var text := labels[0];
      assert text in labels;
      CutFirst(message, pos, labels);
      if |message| - pos > |text| {
        hide Read, LabelWire;
        LabelIsRead(message, pos, text, jumps);
        CutNameIsTruncated(message, pos + 1 + |text|, labels[1..], jumps);
      }
    }
  }

  /** The start of a written name is the start of its first label, or all of that and the start of the rest. */
  lemma CutFirst(message: seq<byte>, pos: nat, labels: seq<seq<byte>>)
    requires labels != [] && (forall l :: l in labels ==> IsLabel(l)) && pos < |message|
    requires message[pos..] < Encode(labels, [0])
    ensures IsLabel(labels[0]) && message[pos] == |labels[0]|
    ensures |message| - pos > |labels[0]| ==>
              var next := pos + 1 + |labels[0]|;
              LabelWire(labels[0]) <= message[pos..] && message[next..] < Encode(labels[1..], [0])
  {
    var k, wire, whole := |message| - pos, LabelWire(labels[0]), Encode(labels, [0]);
    assert labels[0] in labels;
    assert whole == wire + Encode(labels[1..], [0]);
    assert message[pos..] == whole[..k];
    assert message[pos] == message[pos..][0] == whole[0];
    if k >= |wire| {
      assert message[pos..][..|wire|] == whole[..|wire|] == wire;
      assert message[pos + |wire|..] == message[pos..][|wire|..] == whole[..k][|wire|..];
      assert whole[..k][|wire|..] == Encode(labels[1..], [0])[..k - |wire|];
    }
  }

  /** A compression pointer (section 4.1.4 of RFC 1035): two set bits and a fourteen-bit offset. */
  function PointerTo(target: nat): seq<byte>
    requires target < 16384
  {
    [192 + target / 256, target % 256]
  }

  /** A written pointer leads to the name at its target, and ends where it stands. */
  lemma PointerIsRead(message: seq<byte>, pos: nat, target: nat, jumps: nat)
    requires target < 16384 && pos <= |message| && PointerTo(target) <= message[pos..]
    ensures Read(message, pos, jumps)
            == if target >= |message| then Failed(PointerOutOfRange)
               else if jumps == 0 then Failed(PointerLoop)
               else SeenFromStart([], Some(pos + 2), Read(message, target, jumps - 1))
  {
    assert message[pos] == message[pos..][0] == 192 + target / 256;
    assert message[pos + 1] == message[pos..][1] == target % 256;
    assert Target(message, pos) == target;
    if target < |message| && jumps > 0 {
      var r := Read(message, target, jumps - 1);
      assert r.Name? ==> [] + r.labels == r.labels;
    }
  }

  /**
   Compressed names round-trip: labels that end in a pointer to a name written
   anywhere else in the message read as those labels and then that name's.
   */
  lemma CompressedNameRoundTrip(
    message: seq<byte>, pos: nat, labels: seq<seq<byte>>, target: nat, suffix: seq<seq<byte>>)
    requires (forall l :: l in labels ==> IsLabel(l)) && (forall l :: l in suffix ==> IsLabel(l))
    requires pos <= |message| && target <= |message| && target < 16384
    requires Encode(labels, PointerTo(target)) <= message[pos..] && Encode(suffix, [0]) <= message[target..]
    ensures Read(message, pos, MAX_JUMPS) == Name(labels + suffix, pos + |Encode(labels, PointerTo(target))|)
  {
    hide Read, Encode;
    var pointer := PointerTo(target);
    EncodedNameIsRead(message, pos, labels, pointer, MAX_JUMPS);
    var at := pos + |Encode(labels, pointer)| - 2;
    EncodedNameIsRead(message, target, suffix, [0], MAX_JUMPS - 1);
    var end := target + |Encode(suffix, [0])| - 1;
    assert message[end] == message[end..][0] == 0;
    RootIsRead(message, end, MAX_JUMPS - 1);
    PointerIsRead(message, at, target, MAX_JUMPS);
    assert suffix + [] == suffix && [] + suffix == suffix;
  }

  lemma RootIsRead(message: seq<byte>, pos: nat, jumps: nat)
    requires pos < |message| && message[pos] == 0
    ensures Read(message, pos, jumps) == Name([], pos + 1)
  {
  }

  /** Uncompressed names round-trip. */
  lemma PlainNameRoundTrip(before: seq<byte>, labels: seq<seq<byte>>, after: seq<byte>)
    requires forall l :: l in labels ==> IsLabel(l)
    ensures Read(before + Encode(labels, [0]) + after, |before|, MAX_JUMPS)
            == Name(labels, |before| + |Encode(labels, [0])|)
  {
    var message := before + Encode(labels, [0]) + after;
    assert message[|before|..] == Encode(labels, [0]) + after;
    EncodedNameIsRead(message, |before|, labels, [0], MAX_JUMPS);
    var at := |before| + |Encode(labels, [0])| - 1;
    assert message[at] == message[at..][0] == 0;
    assert labels + [] == labels;
  }
}
