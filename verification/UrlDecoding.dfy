/** URL decoding of a payload: percent escapes and plus signs. */
module UrlDecoding {
  import opened Bytes
  import Chunked = ChunkedBody

  const PERCENT: byte := 37
  const PLUS: byte := 43

  datatype Decoded = Decoded(bytes: seq<byte>, changed: bool, invalidEscapes: nat)

  /** The byte a percent escape at `index` stands for, if there is a valid one. */
  function EscapeAt(input: seq<byte>, index: nat): Option<byte> {
    if index + 2 < |input| && input[index] == PERCENT then
      match (Chunked.HexValue(input[index + 1]), Chunked.HexValue(input[index + 2]))
      case (Some(high), Some(low)) => if high < 16 && low < 16 then Some(16 * high + low) else None
      case _ => None
    else None
  }

  function Prepend(b: byte, rest: Decoded): Decoded { rest.(bytes := [b] + rest.bytes) }

  /** What the input from `index` on decodes to; escapes that are not valid stay as they are. */
  function DecodeFrom(input: seq<byte>, index: nat): (r: Decoded)
    requires index <= |input|
    ensures |r.bytes| <= |input| - index
    decreases |input| - index
  {
    if index == |input| then Decoded([], false, 0)
    else if EscapeAt(input, index).Some? then
      Prepend(EscapeAt(input, index).value, DecodeFrom(input, index + 3)).(changed := true)
    else if input[index] == PERCENT then
      var rest := DecodeFrom(input, index + 1);
      Prepend(PERCENT, rest).(invalidEscapes := rest.invalidEscapes + 1)
    else if input[index] == PLUS then Prepend(SPACE, DecodeFrom(input, index + 1)).(changed := true)
    else Prepend(input[index], DecodeFrom(input, index + 1))
  }

  datatype Outcome = Applied(bytes: seq<byte>, invalidEscapes: nat) | Noop

  function OutcomeOf(d: Decoded): Outcome { if d.changed then Applied(d.bytes, d.invalidEscapes) else Noop }

  method UrlDecode(input: seq<byte>) returns (r: Outcome)
    ensures r == OutcomeOf(DecodeFrom(input, 0))
  {
    hide EscapeAt, DecodeFrom, After;
    AfterNothing(input);
    var output: seq<byte> := [];
    var index: nat := 0;
    var changed, invalidEscapes: nat := false, 0;
    while index < |input|
      invariant index <= |input|
      invariant DecodeFrom(input, 0) == After(output, changed, invalidEscapes, DecodeFrom(input, index))
    {
      var escape := EscapeAt(input, index);
      AppendOne(output, changed, invalidEscapes, input, index);
      if escape.Some? {
        output, changed, index := output + [escape.value], true, index + 3;
      } else if input[index] == PERCENT {
        output, invalidEscapes, index := output + [PERCENT], invalidEscapes + 1, index + 1;
      } else if input[index] == PLUS {
        output, changed, index := output + [SPACE], true, index + 1;
      } else {
        output, index := output + [input[index]], index + 1;
      }
    }
    AfterAll(output, changed, invalidEscapes, input);
    if !changed {
      return Noop;
    }
    return Applied(output, invalidEscapes);
  }

  /** What was decoded before, and then the rest. */
  function After(output: seq<byte>, changed: bool, invalidEscapes: nat, rest: Decoded): Decoded {
    Decoded(output + rest.bytes, changed || rest.changed, invalidEscapes + rest.invalidEscapes)
  }

  lemma AfterNothing(input: seq<byte>)
    ensures After([], false, 0, DecodeFrom(input, 0)) == DecodeFrom(input, 0)
  {
    hide DecodeFrom;
  }

  lemma AfterAll(output: seq<byte>, changed: bool, invalidEscapes: nat, input: seq<byte>)
    ensures After(output, changed, invalidEscapes, DecodeFrom(input, |input|)) == Decoded(output, changed, invalidEscapes)
  {
  }

  lemma AppendOne(output: seq<byte>, changed: bool, invalidEscapes: nat, input: seq<byte>, index: nat)
    requires index < |input|
    ensures EscapeAt(input, index).Some? ==> index + 3 <= |input|
    ensures After(output, changed, invalidEscapes, DecodeFrom(input, index))
            == if EscapeAt(input, index).Some? then
                 After(output + [EscapeAt(input, index).value], true, invalidEscapes, DecodeFrom(input, index + 3))
               else if input[index] == PERCENT then
                 After(output + [PERCENT], changed, invalidEscapes + 1, DecodeFrom(input, index + 1))
               else if input[index] == PLUS then After(output + [SPACE], true, invalidEscapes, DecodeFrom(input, index + 1))
               else After(output + [input[index]], changed, invalidEscapes, DecodeFrom(input, index + 1))
  {
    hide Chunked.HexValue;
    assert forall b: byte, rest: seq<byte> :: output + ([b] + rest) == output + [b] + rest;
  }

  // ---------------------------------------------------------------------
  // Encoding

  predicate IsHex(b: byte) { Chunked.HexValue(b).Some? }

  /**
   A byte written as itself, as a plus sign for a space, or as an escape in digits of
   any case; or a percent sign that two such digits do not follow.
   */
  datatype Piece = Plain(b: byte) | Plus | Escape(high: byte, low: byte) | Stray {
    predicate Valid(later: seq<byte>) {
      match this
      case Plain(b) => b != '%' as byte && b != '+' as byte
      case Plus => true
      case Escape(high, low) => IsHex(high) && IsHex(low)
      case Stray => !(|later| >= 2 && IsHex(later[0]) && IsHex(later[1]))
    }

    function Wire(): seq<byte> {
      match this
      case Plain(b) => [b]
      case Plus => ['+' as byte]
      case Escape(high, low) => ['%' as byte, high, low]
      case Stray => ['%' as byte]
    }

    predicate IsDecoded() { Plus? || Escape? }

    /** The byte it stands for. */
    function Meaning(): int
      requires Escape? ==> IsHex(high) && IsHex(low)
    {
      match this
      case Plain(b) => b
      case Plus => ' ' as int
      case Escape(high, low) => 16 * Chunked.HexValue(high).value + Chunked.HexValue(low).value
      case Stray => '%' as int
    }
  }

  predicate AllValid(pieces: seq<Piece>) {
    pieces == [] || (pieces[0].Valid(Encode(pieces[1..])) && AllValid(pieces[1..]))
  }

  function Encode(pieces: seq<Piece>): seq<byte> {
    if pieces == [] then [] else pieces[0].Wire() + Encode(pieces[1..])
  }

  function Meanings(pieces: seq<Piece>): (r: seq<int>)
    requires AllValid(pieces)
  {
    if pieces == [] then [] else [pieces[0].Meaning()] + Meanings(pieces[1..])
  }

  function Strays(pieces: seq<Piece>): nat {
    if pieces == [] then 0 else (if pieces[0].Stray? then 1 else 0) + Strays(pieces[1..])
  }

  predicate AnyDecoded(pieces: seq<Piece>) {
    pieces != [] && (pieces[0].IsDecoded() || AnyDecoded(pieces[1..]))
  }

  /** Any encoding of any bytes decodes to those bytes, and stray percent signs are kept and counted. */
  lemma {:induction false} EncodedIsDecoded(pieces: seq<Piece>, input: seq<byte>, index: nat)
    requires AllValid(pieces) && index <= |input| && input[index..] == Encode(pieces)
    ensures var r := DecodeFrom(input, index);
            r.bytes == Meanings(pieces) && r.invalidEscapes == Strays(pieces) && (r.changed <==> AnyDecoded(pieces))
    decreases |pieces|
  {
    if pieces != [] {
      hide DecodeFrom, Piece.Valid, Piece.Wire, Piece.Meaning;
      var p := pieces[0];
      var next := index + |p.Wire()|;
      PieceIsRead(p, input, index, Encode(pieces[1..]));
      assert input[next..] == input[index..][|p.Wire()|..] == Encode(pieces[1..]);
      EncodedIsDecoded(pieces[1..], input, next);
    }
  }

  lemma PieceIsRead(p: Piece, input: seq<byte>, index: nat, later: seq<byte>)
    requires p.Valid(later) && index <= |input| && input[index..] == p.Wire() + later
    ensures index + |p.Wire()| <= |input| && (p.Escape? ==> IsHex(p.high) && IsHex(p.low)) && 0 <= p.Meaning() < 256
    ensures var rest := DecodeFrom(input, index + |p.Wire()|);
            DecodeFrom(input, index)
            == Prepend(p.Meaning(), rest).(changed := rest.changed || p.IsDecoded(),
                                           invalidEscapes := rest.invalidEscapes + if p.Stray? then 1 else 0)
  {
    var wire := p.Wire();
    assert forall k :: 0 <= k < |wire| + |later| ==> input[index + k] == input[index..][k] == (wire + later)[k];
    if p.Escape? {
      Chunked.HexValueIs(p.high);
      Chunked.HexValueIs(p.low);
    }
  }

  /** Every input is an encoding in exactly this sense. */
  lemma {:induction false} EveryInputIsEncoded(input: seq<byte>) returns (pieces: seq<Piece>)
    ensures AllValid(pieces) && Encode(pieces) == input
    decreases |input|
  {
    if input == [] {
      return [];
    }
    var first, size :=
      if input[0] == '+' as byte then Plus else if input[0] != '%' as byte then Plain(input[0])
      else if |input| >= 3 && IsHex(input[1]) && IsHex(input[2]) then Escape(input[1], input[2]) else Stray,
      if input[0] == '%' as byte && |input| >= 3 && IsHex(input[1]) && IsHex(input[2]) then 3 else 1;
    var rest := EveryInputIsEncoded(input[size..]);
    pieces := [first] + rest;
    assert pieces[1..] == rest;
    assert input == first.Wire() + input[size..];
  }

  /** The outcome on any input: the bytes its pieces stand for, or nothing to do when none is decoded. */
  lemma DecodesToMeanings(pieces: seq<Piece>)
    requires AllValid(pieces)
    ensures var r := OutcomeOf(DecodeFrom(Encode(pieces), 0));
            if AnyDecoded(pieces) then r.Applied? && r.bytes == Meanings(pieces) && r.invalidEscapes == Strays(pieces)
            else r == Noop
    ensures !AnyDecoded(pieces) ==> Meanings(pieces) == Encode(pieces)
  {
    hide DecodeFrom;
    var input := Encode(pieces);
    assert input[0..] == input;
    EncodedIsDecoded(pieces, input, 0);
    if !AnyDecoded(pieces) {
      NothingDecoded(pieces);
    }
  }

  lemma {:induction false} NothingDecoded(pieces: seq<Piece>)
    requires AllValid(pieces) && !AnyDecoded(pieces)
    ensures Meanings(pieces) == Encode(pieces)
  {
    if pieces != [] {
      NothingDecoded(pieces[1..]);
    }
  }

  /** Input without a plus sign or a valid escape is left alone, and only such input. */
  lemma {:induction false} NothingToDecode(input: seq<byte>, index: nat)
    requires index <= |input|
    ensures !DecodeFrom(input, index).changed ==> DecodeFrom(input, index).bytes == input[index..]
    ensures !DecodeFrom(input, index).changed
            <==> forall i :: index <= i < |input| ==> input[i] != PLUS && EscapeAt(input, i).None?
    decreases |input| - index
  {
    if index < |input| {
      hide EscapeAt;
      if EscapeAt(input, index).None? {
        NothingToDecode(input, index + 1);
        assert input[index..] == [input[index]] + input[index + 1..];
      }
    } else {
      assert input[index..] == [];
    }
  }
}
