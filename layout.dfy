/** The observable behaviour of the three encoding primitives the builders
    call: a buffer-layout `struct` of `u8`, `nu64` and fixed-size `blob`
    fields encoded into a buffer, `Buffer.copy` into a target, and a
    reference decoder that reads a layout back (the reading the on-chain
    program does). */
module Layout {
  import opened Bytes

  /** Why an encoding stops: a number does not fit its field (the buffer's
      range check), or a value has the wrong shape for its field (a blob of
      the wrong length, a number where bytes are expected). */
  datatype EncodeError = OutOfRange | WrongShape

  datatype Result<T> = Ok(value: T) | Err(error: EncodeError)

  /** One field of a struct layout. */
  datatype FieldKind = U8 | Nu64 | Blob(width: nat)

  /** The value given for a field: a number or raw bytes. */
  datatype Value = Num(n: nat) | Raw(bytes: seq<byte>)

  function Width(k: FieldKind): nat
  {
    match k
    case U8 => 1
    case Nu64 => 8
    case Blob(w) => w
  }

  /** The layout's `span`: the widths of its fields added up. */
  function Span(layout: seq<FieldKind>): nat
  {
    if layout == [] then 0 else Width(layout[0]) + Span(layout[1..])
  }

  lemma {:induction false} SpanConcat(a: seq<FieldKind>, c: seq<FieldKind>)
    ensures Span(a + c) == Span(a) + Span(c)
  {
    if a == [] {
      assert a + c == c;
    } else {
      assert (a + c)[1..] == a[1..] + c;
      SpanConcat(a[1..], c);
    }
  }

  /** The bytes one field contributes: `u8` one byte, `nu64` eight
      little-endian bytes, a blob its bytes, which must be exactly as long
      as the blob. */
  function EncodeField(k: FieldKind, v: Value): (r: Result<seq<byte>>)
    ensures r.Ok? ==> |r.value| == Width(k)
    ensures r.Err? <==> match (k, v)
                        case (U8, Num(n)) => n >= 256
                        case (Nu64, Num(n)) => n >= U64_LIMIT
                        case (Blob(w), Raw(b)) => |b| != w
                        case _ => true
  {
    match (k, v)
    case (U8, Num(n)) => if n < 256 then Ok([n]) else Err(OutOfRange)
    case (Nu64, Num(n)) => if n < U64_LIMIT then Ok(LE(n, 8)) else Err(OutOfRange)
    case (Blob(w), Raw(b)) => if |b| == w then Ok(b) else Err(WrongShape)
    case _ => Err(WrongShape)
  }

  /** `x` followed by `y`, or the first of their errors. */
  function Then(x: Result<seq<byte>>, y: Result<seq<byte>>): Result<seq<byte>>
  {
    match x
    case Err(e) => Err(e)
    case Ok(p) =>
      match y
      case Err(e) => Err(e)
      case Ok(q) => Ok(p + q)
  }

  /** The struct's encoding: its fields in declaration order, stopping at
      the first one that does not fit. */
  function Encode(layout: seq<FieldKind>, values: seq<Value>): (r: Result<seq<byte>>)
    requires |layout| == |values|
    ensures r.Ok? ==> |r.value| == Span(layout)
  {
    if layout == [] then Ok([])
    else Then(EncodeField(layout[0], values[0]), Encode(layout[1..], values[1..]))
  }

  lemma {:induction false} EncodeConcat(a: seq<FieldKind>, va: seq<Value>, c: seq<FieldKind>, vc: seq<Value>)
    requires |a| == |va| && |c| == |vc|
    ensures Encode(a + c, va + vc) == Then(Encode(a, va), Encode(c, vc))
  {
    if a == [] {
      assert a + c == c && va + vc == vc;
      match Encode(c, vc)
      case Ok(q) => assert [] + q == q;
      case Err(_) =>
    } else {
      assert (a + c)[1..] == a[1..] + c;
      assert (va + vc)[1..] == va[1..] + vc;
      EncodeConcat(a[1..], va[1..], c, vc);
      match EncodeField(a[0], va[0])
      case Err(_) =>
      case Ok(h) =>
        match Encode(a[1..], va[1..])
        case Err(_) =>
        case Ok(t) =>
          match Encode(c, vc)
          case Err(_) =>
          case Ok(q) => assert h + (t + q) == (h + t) + q;
    }
  }

  /** The encoding succeeds exactly when every field fits. */
  lemma {:induction false} EncodeOkIff(layout: seq<FieldKind>, values: seq<Value>)
    requires |layout| == |values|
    ensures Encode(layout, values).Ok? <==>
            forall i :: 0 <= i < |layout| ==> EncodeField(layout[i], values[i]).Ok?
  {
    if layout != [] {
      EncodeOkIff(layout[1..], values[1..]);
      assert forall i :: 1 <= i < |layout| ==> layout[i] == layout[1..][i - 1] && values[i] == values[1..][i - 1];
    }
  }

  // ---------------------------------------------------------------------
  // Runs of `nu64` fields.
  // ---------------------------------------------------------------------

  /** k `nu64` fields in a row. */
  function Nu64s(k: nat): (r: seq<FieldKind>)
    ensures |r| == k
    ensures forall i :: 0 <= i < k ==> r[i] == Nu64
  {
    seq(k, i => Nu64)
  }

  function Nums(ns: seq<nat>): (r: seq<Value>)
    ensures |r| == |ns|
    ensures forall i :: 0 <= i < |ns| ==> r[i] == Num(ns[i])
  {
    seq(|ns|, i requires 0 <= i < |ns| => Num(ns[i]))
  }

  /** Each number as eight little-endian bytes, one after the other. */
  function LEFields(ns: seq<nat>): (r: seq<byte>)
    ensures |r| == 8 * |ns|
  {
    if ns == [] then [] else LE(ns[0], 8) + LEFields(ns[1..])
  }

  lemma {:induction false} SpanNu64s(k: nat)
    ensures Span(Nu64s(k)) == 8 * k
  {
    if k > 0 {
      assert Nu64s(k)[1..] == Nu64s(k - 1);
      SpanNu64s(k - 1);
    }
  }

  /** A run of `nu64` fields encodes to the numbers' little-endian bytes
      in order when every number is below 2^64, and fails with a range
      error otherwise. */
  lemma {:induction false} EncodeNu64s(ns: seq<nat>)
    ensures Encode(Nu64s(|ns|), Nums(ns))
            == if forall i :: 0 <= i < |ns| ==> ns[i] < U64_LIMIT then Ok(LEFields(ns)) else Err(OutOfRange)
  {
    if ns != [] {
      assert Nu64s(|ns|)[1..] == Nu64s(|ns| - 1);
      assert Nums(ns)[1..] == Nums(ns[1..]);
      EncodeNu64s(ns[1..]);
      assert forall i :: 1 <= i < |ns| ==> ns[i] == ns[1..][i - 1];
    }
  }

  /** Field i of the run occupies bytes 8i to 8i+7. */
  lemma {:induction false} LEFieldsAt(ns: seq<nat>, i: nat)
    requires i < |ns|
    ensures LEFields(ns)[8 * i..8 * i + 8] == LE(ns[i], 8)
  {
    if i > 0 {
      LEFieldsAt(ns[1..], i - 1);
      assert LEFields(ns)[8..] == LEFields(ns[1..]);
    }
  }

  /** Reads a field back from exactly its own bytes. */
  function DecodeField(k: FieldKind, s: seq<byte>): Value
    requires |s| == Width(k)
  {
    match k
    case U8 => Num(s[0])
    case Nu64 => Num(LEValue(s))
    case Blob(_) => Raw(s)
  }

  /** Reads every field of the layout back, in order. */
  function Decode(layout: seq<FieldKind>, s: seq<byte>): (r: seq<Value>)
    requires |s| == Span(layout)
    ensures |r| == |layout|
  {
    if layout == [] then []
    else [DecodeField(layout[0], s[..Width(layout[0])])] + Decode(layout[1..], s[Width(layout[0])..])
  }

  /** Decoding undoes encoding, and the encoding is exactly the layout's
      span long. */
  lemma {:induction false} DecodeEncode(layout: seq<FieldKind>, values: seq<Value>)
    requires |layout| == |values|
    requires Encode(layout, values).Ok?
    ensures |Encode(layout, values).value| == Span(layout)
    ensures Decode(layout, Encode(layout, values).value) == values
  {
    if layout != [] {
      var h := EncodeField(layout[0], values[0]).value;
      var t := Encode(layout[1..], values[1..]).value;
      var s := h + t;
      assert s[..Width(layout[0])] == h && s[Width(layout[0])..] == t;
      if layout[0] == Nu64 {
        Pow256Eight();
        LERoundTrip(values[0].n, 8);
      }
      DecodeEncode(layout[1..], values[1..]);
      assert values == [values[0]] + values[1..];
    }
  }

  // ---------------------------------------------------------------------
  // Writing into buffers.
  // ---------------------------------------------------------------------

  /** Writes `bytes` into `b` from `offset` on, one byte at a time. */
  method WriteBytes(b: array<byte>, offset: nat, bytes: seq<byte>)
    requires offset + |bytes| <= b.Length
    modifies b
    ensures b[..] == Overwrite(old(b[..]), offset, bytes)
  {
    var i := 0;
    while i < |bytes|
      invariant 0 <= i <= |bytes|
      invariant b[..] == Overwrite(old(b[..]), offset, bytes[..i])
    {
      b[offset + i] := bytes[i];
      i := i + 1;
    }
    assert bytes[..i] == bytes;
  }

  /** `Buffer.copy(target)`: copies as much of `src` as fits to the front
      of `target`, leaves the rest of `target` alone, and returns how many
      bytes it copied. */
  method CopyInto(src: seq<byte>, target: array<byte>) returns (copied: nat)
    modifies target
    ensures copied == if |src| < target.Length then |src| else target.Length
    ensures target[..] == Overwrite(old(target[..]), 0, src[..copied])
  {
    copied := if |src| < target.Length then |src| else target.Length;
    WriteBytes(target, 0, src[..copied]);
  }

  /** A struct layout's `encode(values, b, offset)`: writes the fields one
      after the other and returns the number of bytes written; a field that
      does not fit ends the encoding with its error. */
  method EncodeInto(layout: seq<FieldKind>, values: seq<Value>, b: array<byte>, offset: nat)
    returns (r: Result<nat>)
    requires |layout| == |values|
    requires offset + Span(layout) <= b.Length
    modifies b
    ensures match Encode(layout, values)
            case Ok(bytes) => r == Ok(|bytes|) && b[..] == Overwrite(old(b[..]), offset, bytes)
            case Err(e) => r == Err(e)
    ensures b[..offset] == old(b[..offset])
    ensures b[offset + Span(layout)..] == old(b[offset + Span(layout)..])
  {
    var i, off := 0, offset;
    ghost var acc: seq<byte> := [];
    while i < |layout|
      invariant 0 <= i <= |layout|
      invariant Encode(layout[..i], values[..i]) == Ok(acc)
      invariant off == offset + |acc| == offset + Span(layout[..i])
      invariant offset + |acc| <= b.Length
      invariant b[..] == Overwrite(old(b[..]), offset, acc)
      invariant b[offset + Span(layout)..] == old(b[offset + Span(layout)..])
    {
      var field := EncodeField(layout[i], values[i]);
      assert layout[..i + 1] == layout[..i] + [layout[i]];
      assert values[..i + 1] == values[..i] + [values[i]];
      EncodeConcat(layout[..i], values[..i], [layout[i]], [values[i]]);
      assert layout == layout[..i + 1] + layout[i + 1..];
      assert values == values[..i + 1] + values[i + 1..];
      EncodeConcat(layout[..i + 1], values[..i + 1], layout[i + 1..], values[i + 1..]);
      if field.Err? {
        return Err(field.error);
      }
      assert field.value + [] == field.value;
      SpanConcat(layout[..i], [layout[i]]);
      SpanConcat(layout[..i + 1], layout[i + 1..]);
      WriteBytes(b, off, field.value);
      OverwriteAdjacent(old(b[..]), offset, acc, field.value);
      acc := acc + field.value;
      off := off + |field.value|;
      i := i + 1;
    }
    assert layout[..i] == layout && values[..i] == values;
    r := Ok(off - offset);
  }
}
