/** The Python bindings around the long-array codec used for block states and
    heightmaps (long_array.py.cpp): input validation, the choice of bits per
    entry when encoding, and the choice of element width when decoding. The
    bit-packing kernels themselves are not part of this model. */
module LongArray {
  import opened Wrappers
  import opened Decimal

  /** std::uint8_t, the type of bits_per_entry and min_bits_per_entry. */
  newtype u8 = x: int | 0 <= x < 256

  function Pow2(n: nat): (r: nat)
    ensures r >= 1
  {
    if n == 0 then 1 else 2 * Pow2(n - 1)
  }

  /** std::bit_width: the number of bits needed to write x (0 for x == 0). */
  function BitWidth(x: nat): nat
  {
    if x == 0 then 0 else 1 + BitWidth(x / 2)
  }

  /** x fits in w bits exactly when its bit width is at most w. */
  lemma {:induction false} FitsIffBitWidth(x: nat, w: nat)
    ensures x < Pow2(w) <==> BitWidth(x) <= w
    decreases w
  {
    if x == 0 {
    } else if w == 0 {
    } else {
      FitsIffBitWidth(x / 2, w - 1);
    }
  }

  /** The largest element of a sequence, 0 for the empty sequence. */
  function SeqMax(s: seq<nat>): (m: nat)
    ensures forall i :: 0 <= i < |s| ==> s[i] <= m
    ensures |s| > 0 ==> m in s
  {
    if |s| == 0 then 0
    else if |s| == 1 then s[0]
    else
      var rest := SeqMax(s[1..]);
      assert forall i :: 1 <= i < |s| ==> s[i] == s[1..][i - 1];
      if s[0] >= rest then s[0] else rest
  }

  /** std::max_element over the decoded span: the index of the first largest
      element, or the past-the-end index a.Length when the span is empty. */
  method MaxElement(a: array<nat>) returns (k: nat)
    ensures k <= a.Length
    ensures k == a.Length <==> a.Length == 0
    ensures k < a.Length ==> forall j :: 0 <= j < a.Length ==> a[j] <= a[k]
    ensures k < a.Length ==> forall j :: 0 <= j < k ==> a[j] < a[k]
  {
    if a.Length == 0 {
      return a.Length;
    }
    k := 0;
    var i := 1;
    while i < a.Length
      invariant 1 <= i <= a.Length
      invariant k < i
      invariant forall j :: 0 <= j < i ==> a[j] <= a[k]
      invariant forall j :: 0 <= j < k ==> a[j] < a[k]
    {
      if a[k] < a[i] {
        k := i;
      }
      i := i + 1;
    }
  }

  /** The bits per entry needed by the largest element when no width is given.
      On an empty input this is 0 (see the README finding: the source
      dereferences max_element's end iterator there). */
  function RequiredBitsPerEntry(values: seq<nat>): (w: nat)
    ensures forall i :: 0 <= i < |values| ==> values[i] < Pow2(w)
    ensures forall v :: (forall i :: 0 <= i < |values| ==> values[i] < Pow2(v)) ==> w <= v
  {
    var w := BitWidth(SeqMax(values));
    assert forall i :: 0 <= i < |values| ==> values[i] < Pow2(w) by {
      forall i | 0 <= i < |values| ensures values[i] < Pow2(w) {
        FitsIffBitWidth(SeqMax(values), w);
        FitsIffBitWidth(values[i], w);
        BitWidthMonotonic(values[i], SeqMax(values));
      }
    }
    assert forall v :: (forall i :: 0 <= i < |values| ==> values[i] < Pow2(v)) ==> w <= v by {
      forall v | forall i :: 0 <= i < |values| ==> values[i] < Pow2(v)
        ensures w <= v
      {
        if |values| > 0 {
          var k :| 0 <= k < |values| && values[k] == SeqMax(values);
          FitsIffBitWidth(values[k], v);
        }
      }
    }
    w
  }

  lemma {:induction false} BitWidthMonotonic(x: nat, y: nat)
    requires x <= y
    ensures BitWidth(x) <= BitWidth(y)
  {
    if x > 0 {
      BitWidthMonotonic(x / 2, y / 2);
    }
  }

  /** The bits per entry _encode_long_array encodes with. An explicit width is
      used unchanged; otherwise the result is max(min_bits_per_entry, bit width
      of the largest element), which is the smallest width that is at least
      min_bits_per_entry and holds every element. */
  function ChooseBitsPerEntry(bitsPerEntry: Option<u8>, minBitsPerEntry: u8, values: seq<nat>): (w: nat)
    requires forall i :: 0 <= i < |values| ==> values[i] < Pow2(64)
    ensures bitsPerEntry.Some? ==> w == bitsPerEntry.value as nat
    ensures bitsPerEntry.None? ==> w >= minBitsPerEntry as nat
    ensures bitsPerEntry.None? ==> forall i :: 0 <= i < |values| ==> values[i] < Pow2(w)
    ensures bitsPerEntry.None? ==>
      forall v :: v >= minBitsPerEntry as nat && (forall i :: 0 <= i < |values| ==> values[i] < Pow2(v)) ==> w <= v
    ensures w < 256
  {
    match bitsPerEntry
    case Some(b) => b as nat
    case None => FittingWidth(minBitsPerEntry, values)
  }

  /** The width chosen when none is given: max(min_bits_per_entry, bit width
      of the largest element). */
  function FittingWidth(minBitsPerEntry: u8, values: seq<nat>): (w: nat)
    requires forall i :: 0 <= i < |values| ==> values[i] < Pow2(64)
    ensures minBitsPerEntry as nat <= w < 256
    ensures forall i :: 0 <= i < |values| ==> values[i] < Pow2(w)
    ensures forall v :: v >= minBitsPerEntry as nat && (forall i :: 0 <= i < |values| ==> values[i] < Pow2(v)) ==> w <= v
  {
    var required := RequiredBitsPerEntry(values);
    assert required <= 64;
    var w := if minBitsPerEntry as nat >= required then minBitsPerEntry as nat else required;
    assert forall i :: 0 <= i < |values| ==> values[i] < Pow2(w) by {
      forall i | 0 <= i < |values| ensures values[i] < Pow2(w) {
        FitsIffBitWidth(values[i], required);
        FitsIffBitWidth(values[i], w);
      }
    }
    w
  }

  /** With the default min_bits_per_entry of 1, an all-zero input is encoded at
      width 1. */
  lemma AllZeroEncodesAtWidthOne(values: seq<nat>)
    requires forall i :: 0 <= i < |values| ==> values[i] == 0
    ensures ChooseBitsPerEntry(None, 1, values) == 1
  {
    assert ChooseBitsPerEntry(None, 1, values) <= 1 by {
      assert forall i :: 0 <= i < |values| ==> values[i] < Pow2(1);
    }
  }

  /** The unsigned element types a decoded array can have. */
  datatype UInt = U8 | U16 | U32 | U64

  function TypeBits(t: UInt): nat
  {
    match t
    case U8 => 8
    case U16 => 16
    case U32 => 32
    case U64 => 64
  }


  /** The switch of decode_long_array: the narrowest unsigned type that holds a
      bits_per_entry-wide value, or runtime_error outside 1..64. */
  function DecodedElementType(bitsPerEntry: u8): (r: Result<UInt>)
    ensures r.Ok? <==> 1 <= bitsPerEntry <= 64
    ensures r.Err? ==> r.error == RuntimeError("Expected 1 <= bits_per_entry <= 64. Got " + NatToString(bitsPerEntry as nat))
    ensures r.Ok? ==> bitsPerEntry as nat <= TypeBits(r.value)
    ensures r.Ok? ==> forall t :: bitsPerEntry as nat <= TypeBits(t) ==> TypeBits(r.value) <= TypeBits(t)
  {
    if 1 <= bitsPerEntry <= 8 then Ok(U8)
    else if 9 <= bitsPerEntry <= 16 then Ok(U16)
    else if 17 <= bitsPerEntry <= 32 then Ok(U32)
    else if 33 <= bitsPerEntry <= 64 then Ok(U64)
    else Err(RuntimeError("Expected 1 <= bits_per_entry <= 64. Got " + NatToString(bitsPerEntry as nat)))
  }

  /** Every value a decoded entry can hold (fewer than 2^bits_per_entry) fits
      the chosen element type. */
  lemma DecodedValuesFit(bitsPerEntry: u8, x: nat)
    requires DecodedElementType(bitsPerEntry).Ok?
    requires x < Pow2(bitsPerEntry as nat)
    ensures x < Pow2(TypeBits(DecodedElementType(bitsPerEntry).value))
  {
    var t := DecodedElementType(bitsPerEntry).value;
    FitsIffBitWidth(x, bitsPerEntry as nat);
    FitsIffBitWidth(x, TypeBits(t));
  }

  /** The buffer item types the bindings tell apart. */
  datatype ItemType = SignedInt(bits: nat) | UnsignedInt(bits: nat) | OtherItemType

  /** py::buffer_info as the bindings read it; strides has one entry per
      dimension. */
  datatype BufferInfo = BufferInfo(itemType: ItemType, ndim: nat, strides: seq<int>, itemsize: nat)

  predicate WellFormed(info: BufferInfo)
  {
    |info.strides| == info.ndim
  }

  /** What decode_long_array hands back: a 1-D array of the chosen element
      type with exactly size entries. The entries come from the decoding
      kernel, which is not part of this model. */
  datatype DecodedArray = DecodedArray(elementType: UInt, length: nat)

  /** decode_long_array: validates the encoded buffer, then picks the element
      type from bits_per_entry. */
  function DecodeLongArray(info: BufferInfo, size: nat, bitsPerEntry: u8, dense: bool): (r: Result<DecodedArray>)
    requires WellFormed(info)
    ensures info.itemType != SignedInt(64) && info.itemType != UnsignedInt(64) ==> r == Err(InvalidArgument("dtype must be (u)int64."))
    ensures r.Ok? <==>
      && (info.itemType == SignedInt(64) || info.itemType == UnsignedInt(64))
      && info.ndim == 1 && info.strides[0] == info.itemsize
      && 1 <= bitsPerEntry <= 64
    ensures r.Ok? ==> r.value.length == size && Ok(r.value.elementType) == DecodedElementType(bitsPerEntry)
    ensures r.Err? && 1 <= bitsPerEntry <= 64 ==> r.error.InvalidArgument?
    ensures (info.itemType == SignedInt(64) || info.itemType == UnsignedInt(64)) && info.ndim != 1 ==>
      r == Err(InvalidArgument("Only 1D arrays are supported."))
    ensures (info.itemType == SignedInt(64) || info.itemType == UnsignedInt(64)) && info.ndim == 1 && info.strides[0] != info.itemsize ==>
      r == Err(InvalidArgument("Slices are not supported."))
    ensures ((info.itemType == SignedInt(64) || info.itemType == UnsignedInt(64)) && info.ndim == 1 &&
             info.strides[0] == info.itemsize && DecodedElementType(bitsPerEntry).Err?) ==>
      r == Err(DecodedElementType(bitsPerEntry).error)
  {
    if !(info.itemType == SignedInt(64) || info.itemType == UnsignedInt(64)) then
      Err(InvalidArgument("dtype must be (u)int64."))
    else if info.ndim != 1 then
      Err(InvalidArgument("Only 1D arrays are supported."))
    else if info.strides[0] != info.itemsize then
      Err(InvalidArgument("Slices are not supported."))
    else
      match DecodedElementType(bitsPerEntry)
      case Ok(t) => Ok(DecodedArray(t, size))
      case Err(e) => Err(e)
  }

  /** What encode_long_array hands to the encoding kernel: the width it
      encodes with, the packing mode and the number of entries. */
  datatype Encoding = Encoding(bitsPerEntry: nat, dense: bool, count: nat)

  /** The element widths encode_long_array accepts, in the order it tries them. */
  predicate IsAcceptedDecodedType(t: ItemType)
  {
    t == UnsignedInt(64) || t == UnsignedInt(32) || t == UnsignedInt(16) || t == UnsignedInt(8)
  }

  /** encode_long_array: validates the input buffer (1-D, not strided, an
      unsigned 8/16/32/64-bit element type) and chooses the bits per entry.
      The span's elements are the values of that element type. */
  method EncodeLongArray(info: BufferInfo, data: array<nat>, bitsPerEntry: Option<u8>, dense: bool, minBitsPerEntry: u8)
    returns (r: Result<Encoding>)
    requires WellFormed(info)
    requires info.itemType.UnsignedInt? ==> forall i :: 0 <= i < data.Length ==> data[i] < Pow2(64)
    ensures info.ndim != 1 ==> r == Err(InvalidArgument("Only 1D arrays are supported."))
    ensures r.Ok? <==> info.ndim == 1 && info.strides[0] == info.itemsize && IsAcceptedDecodedType(info.itemType)
    ensures r.Err? ==> r.error.InvalidArgument?
    ensures r.Ok? ==> r.value == Encoding(ChooseBitsPerEntry(bitsPerEntry, minBitsPerEntry, data[..]), dense, data.Length)
  {
    if info.ndim != 1 {
      return Err(InvalidArgument("Only 1D arrays are supported."));
    }
    if info.strides[0] != info.itemsize {
      return Err(InvalidArgument("Slices are not supported."));
    }
    if !IsAcceptedDecodedType(info.itemType) {
      return Err(InvalidArgument("array must be an unsigned integer array in native byte order."));
    }
    var bits: nat;
    match bitsPerEntry {
      case Some(b) =>
        bits := b as nat;
      case None =>
        var required := 0;
        var k := MaxElement(data);
        if k < data.Length {
          assert data[k] == SeqMax(data[..]) by {
            assert data[k] in data[..];
            assert SeqMax(data[..]) in data[..];
          }
          required := BitWidth(data[k]);
        }
        bits := if minBitsPerEntry as nat >= required then minBitsPerEntry as nat else required;
    }
    r := Ok(Encoding(bits, dense, data.Length));
  }

  /** Finding: with no explicit width, an empty input makes max_element
      return the end position, which _encode_long_array then dereferences. */
  method EmptyInputMaxElementIsEnd(a: array<nat>) returns (k: nat)
    requires a.Length == 0
    ensures k == a.Length
  {
    k := MaxElement(a);
  }
}
