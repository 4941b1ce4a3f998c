/**
 * PackedRecordArray and ChunkedRecordArray of the web UI
 * (assets/web-ui/js/utils.js): records of numeric fields packed into one
 * byte buffer, viewed through typed arrays of widths 1, 4 and 8.
 *
 * The byte buffer is an `array<int>` with one cell per byte. A write of a
 * w-byte field stores the converted value in the cell of its first byte and
 * clears the w - 1 cells after it, which stand for the rest of its bytes; a
 * read returns the cell of the first byte. Two fields therefore only keep
 * their values if their byte ranges never overlap, which is what the layout
 * guarantees.
 */
module RecordArray {
  import opened Wrappers

  datatype FieldType = Int8 | Int32 | Float32 | Float64

  /** BYTES_PER_ELEMENT of the typed array. */
  function Width(t: FieldType): nat
  {
    match t
    case Int8 => 1
    case Int32 => 4
    case Float32 => 4
    case Float64 => 8
  }

  /** The supported type names; anything else is unsupported. */
  function TypeByName(name: string): Option<FieldType>
  {
    if name == "int8" then Some(Int8)
    else if name == "int32" then Some(Int32)
    else if name == "float32" then Some(Float32)
    else if name == "float64" then Some(Float64)
    else None
  }

  /** ToInt8: the value reduced into [-128, 128). */
  function ToInt8(v: int): (r: int)
    ensures -0x80 <= r < 0x80 && (r - v) % 0x100 == 0
  {
    (v + 0x80) % 0x100 - 0x80
  }

  /** ToInt32: the value reduced into [-2^31, 2^31). */
  function ToInt32(v: int): (r: int)
    ensures -0x8000_0000 <= r < 0x8000_0000 && (r - v) % 0x1_0000_0000 == 0
  {
    (v + 0x8000_0000) % 0x1_0000_0000 - 0x8000_0000
  }

  /** The value a typed array of type t stores for v. */
  function Conv(t: FieldType, v: int): int
  {
    match t
    case Int8 => ToInt8(v)
    case Int32 => ToInt32(v)
    case Float32 => v
    case Float64 => v
  }

  datatype Field = Field(name: string, typ: FieldType)

  function W(f: Field): nat { Width(f.typ) }

  function WidthSum(fs: seq<Field>): nat
  {
    if fs == [] then 0 else W(fs[0]) + WidthSum(fs[1..])
  }

  /** An input object's keys are distinct. */
  predicate DistinctNames(input: seq<(string, string)>)
  {
    forall i, j :: 0 <= i < j < |input| ==> input[i].0 != input[j].0
  }

  predicate DistinctFieldNames(fs: seq<Field>)
  {
    forall i, j :: 0 <= i < j < |fs| ==> fs[i].name != fs[j].name
  }

  /** The fields in declaration order; the first unsupported type throws. */
  function ParseFields(input: seq<(string, string)>): (r: Result<seq<Field>>)
    ensures r.Ok? ==> |r.value| == |input|
    ensures r.Ok? ==> forall k :: 0 <= k < |input| ==> r.value[k].name == input[k].0
    ensures r.Ok? <==> forall k :: 0 <= k < |input| ==> TypeByName(input[k].1).Some?
  {
    if input == [] then Ok([])
    else match TypeByName(input[0].1)
      case None => Err("Unsupported type: " + input[0].1)
      case Some(t) =>
        match ParseFields(input[1..])
        case Err(e) => Err(e)
        case Ok(rest) =>
          assert forall k :: 1 <= k < |input| ==> input[k] == input[1..][k - 1];
          Ok([Field(input[0].0, t)] + rest)
  }

  function OfWidth(fs: seq<Field>, w: nat): (r: seq<Field>)
    ensures forall f :: f in r ==> W(f) == w && f in fs
  {
    if fs == [] then [] else (if W(fs[0]) == w then [fs[0]] else []) + OfWidth(fs[1..], w)
  }

  /**
   * fields.sort((a, b) => b.width - a.width): Array.prototype.sort is stable,
   * so the result is the 8-byte fields, then the 4-byte ones, then the 1-byte
   * ones, each group in declaration order.
   */
  function SortByWidth(fs: seq<Field>): seq<Field>
  {
    OfWidth(fs, 8) + OfWidth(fs, 4) + OfWidth(fs, 1)
  }

  predicate NonIncreasing(fs: seq<Field>)
  {
    forall i, j :: 0 <= i < j < |fs| ==> W(fs[i]) >= W(fs[j])
  }

  /** The fields of one width in a stream headed by x. */
  lemma OfWidthCons(x: Field, r: seq<Field>, w: nat)
    ensures multiset(OfWidth([x] + r, w)) == (if W(x) == w then multiset{x} else multiset{}) + multiset(OfWidth(r, w))
  {
    assert ([x] + r)[0] == x && ([x] + r)[1..] == r;
  }

  /** The three width groups of the layout order, as multisets. */
  lemma SortByWidthGroups(fs: seq<Field>)
    ensures multiset(SortByWidth(fs)) == multiset(OfWidth(fs, 8)) + multiset(OfWidth(fs, 4)) + multiset(OfWidth(fs, 1))
  {
  }

  lemma {:induction false} SortByWidthPermutation(fs: seq<Field>)
    ensures multiset(SortByWidth(fs)) == multiset(fs)
  {
    if fs != [] {
      var x, r := fs[0], fs[1..];
      SortByWidthPermutation(r);
      assert fs == [x] + r;
      SortByWidthGroups(fs);
      SortByWidthGroups(r);
      OfWidthCons(x, r, 8);
      OfWidthCons(x, r, 4);
      OfWidthCons(x, r, 1);
      assert W(x) == 8 || W(x) == 4 || W(x) == 1;
      assert multiset(fs) == multiset{x} + multiset(r);
    }
  }

  /** The layout order: non-increasing widths, a permutation of the fields. */
  lemma SortByWidthSorted(fs: seq<Field>)
    ensures NonIncreasing(SortByWidth(fs))
    ensures multiset(SortByWidth(fs)) == multiset(fs)
  {
    SortByWidthPermutation(fs);
    var a, b, c := OfWidth(fs, 8), OfWidth(fs, 4), OfWidth(fs, 1);
    var s := SortByWidth(fs);
    forall i | 0 <= i < |s|
      ensures W(s[i]) == if i < |a| then 8 else if i < |a| + |b| then 4 else 1
    {
      if i < |a| { assert s[i] == a[i]; }
      else if i < |a| + |b| { assert s[i] == b[i - |a|]; }
      else { assert s[i] == c[i - |a| - |b|]; }
    }
  }

  lemma {:induction false} OfWidthDistinct(fs: seq<Field>, w: nat)
    requires DistinctFieldNames(fs)
    ensures DistinctFieldNames(OfWidth(fs, w))
  {
    if fs != [] {
      var r := fs[1..];
      assert DistinctFieldNames(r) by {
        forall i, j | 0 <= i < j < |r| ensures r[i].name != r[j].name { assert r[i] == fs[i + 1] && r[j] == fs[j + 1]; }
      }
      OfWidthDistinct(r, w);
      var t := OfWidth(r, w);
      forall y | y in t ensures y.name != fs[0].name {
        var q :| 0 <= q < |r| && r[q] == y;
        assert fs[q + 1] == y;
      }
    }
  }

  lemma DifferentFieldsDifferentNames(fs: seq<Field>, x: Field, y: Field)
    requires DistinctFieldNames(fs) && x in fs && y in fs && x != y
    ensures x.name != y.name
  {
    var p :| 0 <= p < |fs| && fs[p] == x;
    var q :| 0 <= q < |fs| && fs[q] == y;
    if p < q { assert fs[p].name != fs[q].name; } else { assert fs[q].name != fs[p].name; }
  }

  lemma {:induction false} SortedDistinct(fs: seq<Field>)
    requires DistinctFieldNames(fs)
    ensures DistinctFieldNames(SortByWidth(fs))
  {
    var a, b, c := OfWidth(fs, 8), OfWidth(fs, 4), OfWidth(fs, 1);
    OfWidthDistinct(fs, 8);
    OfWidthDistinct(fs, 4);
    OfWidthDistinct(fs, 1);
    var s := a + b + c;
    forall i, j | 0 <= i < j < |s| ensures s[i].name != s[j].name {
      if j < |a| {
        assert s[i] == a[i] && s[j] == a[j];
      } else if |a| <= i && j < |a| + |b| {
        assert s[i] == b[i - |a|] && s[j] == b[j - |a|];
      } else if |a| + |b| <= i {
        assert s[i] == c[i - |a| - |b|] && s[j] == c[j - |a| - |b|];
      } else {
        if i < |a| && j < |a| + |b| {
          assert s[i] == a[i] && s[j] == b[j - |a|];
        } else if i < |a| {
          assert s[i] == a[i] && s[j] == c[j - |a| - |b|];
        } else {
          assert s[i] == b[i - |a|] && s[j] == c[j - |a| - |b|];
        }
        assert W(s[i]) != W(s[j]);
        DifferentFieldsDifferentNames(fs, s[i], s[j]);
      }
    }
  }

  lemma {:induction false} WidthSumAppend(a: seq<Field>, b: seq<Field>)
    ensures WidthSum(a + b) == WidthSum(a) + WidthSum(b)
  {
    if a != [] {
      assert (a + b)[0] == a[0];
      assert (a + b)[1..] == a[1..] + b;
      WidthSumAppend(a[1..], b);
      assert WidthSum(a + b) == W(a[0]) + WidthSum(a[1..] + b);
    } else {
      assert a + b == b;
    }
  }

  lemma WidthSumPrefix(fs: seq<Field>, k: nat)
    requires k < |fs|
    ensures WidthSum(fs[..k]) + W(fs[k]) == WidthSum(fs[..k + 1])
  {
    assert fs[..k + 1] == fs[..k] + [fs[k]];
    WidthSumAppend(fs[..k], [fs[k]]);
  }

  lemma WidthSumSplit(fs: seq<Field>, k: nat)
    requires k <= |fs|
    ensures WidthSum(fs[..k]) + WidthSum(fs[k..]) == WidthSum(fs)
  {
    assert fs == fs[..k] + fs[k..];
    WidthSumAppend(fs[..k], fs[k..]);
  }

  /** The byte total by width class: 8 per double, 4 per int32/float32, 1 per int8. */
  lemma {:induction false} WidthSumByClass(fs: seq<Field>)
    ensures WidthSum(fs) == 8 * |OfWidth(fs, 8)| + 4 * |OfWidth(fs, 4)| + |OfWidth(fs, 1)|
  {
    if fs != [] {
      WidthSumByClass(fs[1..]);
    }
  }

  lemma {:induction false} UniformSum(fs: seq<Field>, w: nat)
    requires forall f :: f in fs ==> W(f) == w
    requires w == 1 || w == 4 || w == 8
    ensures WidthSum(fs) == w * |fs|
  {
    if fs != [] {
      assert forall f :: f in fs[1..] ==> f in fs;
      UniformSum(fs[1..], w);
      assert W(fs[0]) == w;
      if w == 1 {} else if w == 4 {} else {}
    }
  }

  function CeilDiv(a: nat, b: nat): (r: nat)
    requires b > 0
  {
    (a + b - 1) / b
  }

  /** fieldIndexes: the position of each field name in the layout order. */
  function IndexOf(fs: seq<Field>): map<string, nat>
  {
    if fs == [] then map[] else IndexOf(fs[..|fs| - 1])[fs[|fs| - 1].name := |fs| - 1]
  }

  lemma IndexOfSnoc(s: seq<Field>, k: nat)
    requires k < |s|
    ensures IndexOf(s[..k + 1]) == IndexOf(s[..k])[s[k].name := k]
  {
    var t := s[..k + 1];
    assert t[..|t| - 1] == s[..k];
  }

  /** The layout the constructor computes. */
  datatype Layout = Layout(
    fields: seq<Field>,
    elemSize: nat,
    typeElemSize: seq<nat>,
    typeOffset: seq<nat>,
    index: map<string, nat>)

  /** One more field placed: the strides, offsets, index and byte total of the longer prefix. */
  lemma PlacedSnoc(sorted: seq<Field>, elemSize: nat, k: nat)
    requires k < |sorted|
    ensures Strides(sorted[..k + 1], elemSize) == Strides(sorted[..k], elemSize) + [elemSize / W(sorted[k])]
    ensures TypeOffsets(sorted[..k + 1]) == TypeOffsets(sorted[..k]) + [WidthSum(sorted[..k]) / W(sorted[k])]
    ensures IndexOf(sorted[..k + 1]) == IndexOf(sorted[..k])[sorted[k].name := k]
    ensures WidthSum(sorted[..k + 1]) == WidthSum(sorted[..k]) + W(sorted[k])
  {
    var p, q := sorted[..k], sorted[..k + 1];
    assert q[..k] == p;
    forall j | 0 <= j < k
      ensures q[..j] == p[..j]
    {
    }
    IndexOfSnoc(sorted, k);
    WidthSumPrefix(sorted, k);
  }

  /** The byte offset of field k within an element: the widths before it. */
  function Offset(L: Layout, k: nat): nat
    requires k <= |L.fields|
  {
    WidthSum(L.fields[..k])
  }

  /** The element size: the byte total rounded up to a multiple of the first (widest) width. */
  function AlignedSize(total: nat, alignment: nat): nat
    requires alignment > 0
  {
    CeilDiv(total, alignment) * alignment
  }

  function LayoutOf(input: seq<(string, string)>): Result<Layout>
  {
    match ParseFields(input)
    case Err(e) => Err(e)
    case Ok(fs) =>
      var sorted := SortByWidth(fs);
      if sorted == [] then Err("fields[0] is undefined")
      else
        var elemSize := AlignedSize(WidthSum(fs), W(sorted[0]));
        Ok(Layout(sorted, elemSize, Strides(sorted, elemSize), TypeOffsets(sorted), IndexOf(sorted)))
  }

  /** typeElemSize of each field: the element size in units of its width. */
  function Strides(sorted: seq<Field>, elemSize: nat): (r: seq<nat>)
    ensures |r| == |sorted|
  {
    seq(|sorted|, k requires 0 <= k < |sorted| => elemSize / W(sorted[k]))
  }

  /** typeOffset of each field: its byte offset in units of its width. */
  function TypeOffsets(sorted: seq<Field>): (r: seq<nat>)
    ensures |r| == |sorted|
  {
    seq(|sorted|, k requires 0 <= k < |sorted| => WidthSum(sorted[..k]) / W(sorted[k]))
  }

  /** What the rest of the model relies on about a layout. */
  ghost predicate WellFormed(L: Layout)
  {
    && |L.fields| > 0
    && |L.typeElemSize| == |L.fields| && |L.typeOffset| == |L.fields|
    && DistinctFieldNames(L.fields)
    && WidthSum(L.fields) <= L.elemSize
    && (forall k :: 0 <= k < |L.fields| ==> L.typeElemSize[k] * W(L.fields[k]) == L.elemSize)
    && (forall k :: 0 <= k < |L.fields| ==> L.typeOffset[k] * W(L.fields[k]) == Offset(L, k))
    && (forall k :: 0 <= k < |L.fields| ==> L.fields[k].name in L.index && L.index[L.fields[k].name] == k)
    && (forall n :: n in L.index ==> L.index[n] < |L.fields| && L.fields[L.index[n]].name == n)
  }

  lemma {:induction false} IndexOfFacts(fs: seq<Field>)
    requires DistinctFieldNames(fs)
    ensures forall k :: 0 <= k < |fs| ==> fs[k].name in IndexOf(fs) && IndexOf(fs)[fs[k].name] == k
    ensures forall n :: n in IndexOf(fs) ==> IndexOf(fs)[n] < |fs| && fs[IndexOf(fs)[n]].name == n
  {
    if fs != [] {
      var init := fs[..|fs| - 1];
      IndexOfFacts(init);
    }
  }

  /** The aligned size covers the total and every width up to the alignment divides it. */
  lemma AlignedSizeFacts(total: nat, alignment: nat, w: nat)
    requires alignment == 1 || alignment == 4 || alignment == 8
    requires w == 1 || w == 4 || w == 8
    requires w <= alignment
    ensures total <= AlignedSize(total, alignment)
    ensures (AlignedSize(total, alignment) / w) * w == AlignedSize(total, alignment)
  {
    if alignment == 1 {
      assert AlignedSize(total, 1) == total;
    } else if alignment == 4 {
      assert AlignedSize(total, 4) == (total + 3) / 4 * 4;
    } else {
      assert AlignedSize(total, 8) == (total + 7) / 8 * 8;
    }
  }

  /** Where each field starts, in the layout order. */
  lemma {:induction false} OffsetByClass(fs: seq<Field>, k: nat)
    requires k < |SortByWidth(fs)|
    ensures var a, b := |OfWidth(fs, 8)|, |OfWidth(fs, 4)|;
      var s := SortByWidth(fs);
      && (k < a ==> W(s[k]) == 8 && WidthSum(s[..k]) == 8 * k)
      && (a <= k < a + b ==> W(s[k]) == 4 && WidthSum(s[..k]) == 8 * a + 4 * (k - a))
      && (a + b <= k ==> W(s[k]) == 1)
  {
    var A, B, C := OfWidth(fs, 8), OfWidth(fs, 4), OfWidth(fs, 1);
    var s := SortByWidth(fs);
    SortByWidthSorted(fs);
    if k < |A| {
      assert s[..k] == A[..k];
      assert forall f :: f in A[..k] ==> f in A;
      UniformSum(A[..k], 8);
    } else if k < |A| + |B| {
      assert s[..k] == A + B[..k - |A|];
      assert forall f :: f in B[..k - |A|] ==> f in B;
      UniformSum(A, 8);
      UniformSum(B[..k - |A|], 4);
      WidthSumAppend(A, B[..k - |A|]);
    }
  }

  /** A multiple of w divided by w and multiplied back is itself. */
  lemma WholeMultiple(o: nat, w: nat, q: nat)
    requires w == 1 || w == 4 || w == 8
    requires o == q * w
    ensures (o / w) * w == o
  {
    if w == 4 {
      assert (q * 4) / 4 == q;
    } else if w == 8 {
      assert (q * 8) / 8 == q;
    }
  }

  /** Both typed-array divisions of field k come out whole. */
  lemma {:induction false} FieldDivisions(fs: seq<Field>, k: nat)
    requires k < |SortByWidth(fs)|
    ensures var s := SortByWidth(fs);
      var e := AlignedSize(WidthSum(fs), W(s[0]));
      var w := W(s[k]);
      && WidthSum(fs) <= e
      && (e / w) * w == e
      && (WidthSum(s[..k]) / w) * w == WidthSum(s[..k])
  {
    var s := SortByWidth(fs);
    SortByWidthSorted(fs);
    var w := W(s[k]);
    assert W(s[0]) >= w;
    AlignedSizeFacts(WidthSum(fs), W(s[0]), w);
    OffsetByClass(fs, k);
    var a, b := |OfWidth(fs, 8)|, |OfWidth(fs, 4)|;
    var o := WidthSum(s[..k]);
    if k < a {
      WholeMultiple(o, w, k);
    } else if k < a + b {
      assert 8 * a + 4 * (k - a) == (a + k) * 4;
      WholeMultiple(o, w, a + k);
    } else {
      WholeMultiple(o, w, o);
    }
  }

  /** The fields in layout order add up to the declared total. */
  lemma SortedTotal(fs: seq<Field>)
    ensures WidthSum(SortByWidth(fs)) == WidthSum(fs)
  {
    var A, B, C := OfWidth(fs, 8), OfWidth(fs, 4), OfWidth(fs, 1);
    UniformSum(A, 8);
    UniformSum(B, 4);
    UniformSum(C, 1);
    WidthSumAppend(A, B);
    WidthSumAppend(A + B, C);
    WidthSumByClass(fs);
  }

  /**
   * The constructor's layout: every field's offset is a multiple of its
   * width, the element size is a multiple of every width and holds all the
   * fields, so both typed-array divisions come out whole.
   */
  lemma {:induction false} LayoutWellFormed(input: seq<(string, string)>)
    requires DistinctNames(input) && LayoutOf(input).Ok?
    ensures WellFormed(LayoutOf(input).value)
    ensures NonIncreasing(LayoutOf(input).value.fields)
    ensures multiset(LayoutOf(input).value.fields) == multiset(ParseFields(input).value)
  {
    var fs := ParseFields(input).value;
    var s := SortByWidth(fs);
    var L := LayoutOf(input).value;
    assert L.fields == s;
    SortByWidthSorted(fs);
    assert DistinctFieldNames(fs);
    SortedDistinct(fs);
    IndexOfFacts(s);
    SortedTotal(fs);
    FieldDivisions(fs, 0);
    forall k | 0 <= k < |s|
      ensures L.typeElemSize[k] * W(s[k]) == L.elemSize
      ensures L.typeOffset[k] * W(s[k]) == Offset(L, k)
    {
      FieldDivisions(fs, k);
    }
  }

  /** The byte address of field k of element i: the typed-array index times its width. */
  function Address(L: Layout, i: int, k: nat): int
    requires k < |L.fields| && |L.typeElemSize| == |L.fields| && |L.typeOffset| == |L.fields|
  {
    W(L.fields[k]) * (i * L.typeElemSize[k] + L.typeOffset[k])
  }

  lemma Distribute(w: int, i: int, t: int, o: int)
    ensures w * (i * t + o) == i * (t * w) + o * w
  {
  }

  lemma MulMono(a: int, b: int, c: nat)
    requires a <= b
    ensures a * c <= b * c
  {
  }

  lemma MulSucc(i: int, e: int)
    ensures (i + 1) * e == i * e + e
  {
  }

  lemma AddressIsOffset(L: Layout, i: int, k: nat)
    requires WellFormed(L) && k < |L.fields|
    ensures Address(L, i, k) == i * L.elemSize + Offset(L, k)
  {
    Distribute(W(L.fields[k]), i, L.typeElemSize[k], L.typeOffset[k]);
  }

  lemma FieldInsideElement(L: Layout, k: nat)
    requires WellFormed(L) && k < |L.fields|
    ensures Offset(L, k) + W(L.fields[k]) <= L.elemSize
  {
    WidthSumPrefix(L.fields, k);
    WidthSumSplit(L.fields, k + 1);
  }

  lemma OffsetsOrdered(L: Layout, k: nat, l: nat)
    requires WellFormed(L) && k < l < |L.fields|
    ensures Offset(L, k) + W(L.fields[k]) <= Offset(L, l)
  {
    WidthSumPrefix(L.fields, k);
    WidthSumSplit(L.fields[..l], k + 1);
    assert L.fields[..l][..k + 1] == L.fields[..k + 1];
  }

  /** Distinct (element, field) slots occupy disjoint byte ranges. */
  lemma {:induction false} SlotsDisjoint(L: Layout, i: nat, k: nat, j: nat, l: nat)
    requires WellFormed(L) && k < |L.fields| && l < |L.fields| && (i, k) != (j, l)
    ensures Address(L, j, l) + W(L.fields[l]) <= Address(L, i, k)
         || Address(L, i, k) + W(L.fields[k]) <= Address(L, j, l)
  {
    AddressIsOffset(L, i, k);
    AddressIsOffset(L, j, l);
    FieldInsideElement(L, k);
    FieldInsideElement(L, l);
    var E := L.elemSize;
    if i == j {
      if k < l { OffsetsOrdered(L, k, l); } else { OffsetsOrdered(L, l, k); }
    } else if i < j {
      MulMono(i + 1, j, E);
      MulSucc(i, E);
    } else {
      MulMono(j + 1, i, E);
      MulSucc(j, E);
    }
  }

  /** The slots of elements below n fit in a buffer of n elements. */
  lemma SlotInBuffer(L: Layout, n: nat, i: nat, k: nat)
    requires WellFormed(L) && k < |L.fields| && i < n
    ensures 0 <= Address(L, i, k) && Address(L, i, k) + W(L.fields[k]) <= n * L.elemSize
  {
    AddressIsOffset(L, i, k);
    FieldInsideElement(L, k);
    MulMono(i + 1, n, L.elemSize);
    MulSucc(i, L.elemSize);
    MulMono(0, i, L.elemSize);
  }

  /** The bounds check of a typed array of n elements is exactly 0 <= i < n. */
  lemma {:induction false} TypedIndexInRange(L: Layout, n: nat, i: int, k: nat)
    requires WellFormed(L) && k < |L.fields|
    ensures (0 <= i * L.typeElemSize[k] + L.typeOffset[k] < n * L.typeElemSize[k]) <==> 0 <= i < n
  {
    var w := W(L.fields[k]);
    var t, o := L.typeElemSize[k], L.typeOffset[k];
    FieldInsideElement(L, k);
    assert o * w + w <= t * w;
    assert o < t by {
      if o >= t { MulMono(t, o, w); }
    }
    if i < 0 {
      MulMono(i, -1, t);
    } else if i >= n {
      MulMono(n, i, t);
    } else {
      MulMono(i + 1, n, t);
      MulSucc(i, t);
    }
  }

  function Zeros(n: nat): (r: seq<int>)
    ensures |r| == n && forall x :: 0 <= x < n ==> r[x] == 0
  {
    seq(n, _ => 0)
  }

  /** A w-byte store at addr: the value in the first cell, the others cleared. */
  function StoreBytes(bytes: seq<int>, addr: nat, w: nat, v: int): (r: seq<int>)
    requires 1 <= w && addr + w <= |bytes|
    ensures |r| == |bytes|
  {
    bytes[..addr] + [v] + Zeros(w - 1) + bytes[addr + w..]
  }

  lemma StoreBytesReads(bytes: seq<int>, addr: nat, w: nat, v: int, x: nat)
    requires 1 <= w && addr + w <= |bytes| && x < |bytes|
    ensures StoreBytes(bytes, addr, w, v)[x] ==
      if x == addr then v else if addr < x < addr + w then 0 else bytes[x]
  {
  }

  /**
   * Set-then-get: after a store into slot (i, k), that slot reads back the
   * converted value and every other slot reads what it read before.
   */
  lemma {:induction false} ReadAfterStore(L: Layout, n: nat, bytes: seq<int>, i: nat, k: nat, v: int, j: nat, l: nat)
    requires WellFormed(L) && |bytes| == n * L.elemSize
    requires i < n && j < n && k < |L.fields| && l < |L.fields|
    ensures Address(L, i, k) >= 0 && Address(L, i, k) + W(L.fields[k]) <= |bytes|
    ensures Address(L, j, l) >= 0 && Address(L, j, l) < |bytes|
    ensures StoreBytes(bytes, Address(L, i, k), W(L.fields[k]), Conv(L.fields[k].typ, v))[Address(L, j, l)]
         == if (i, k) == (j, l) then Conv(L.fields[k].typ, v) else bytes[Address(L, j, l)]
  {
    SlotInBuffer(L, n, i, k);
    SlotInBuffer(L, n, j, l);
    if (i, k) != (j, l) {
      SlotsDisjoint(L, i, k, j, l);
    }
    StoreBytesReads(bytes, Address(L, i, k), W(L.fields[k]), Conv(L.fields[k].typ, v), Address(L, j, l));
  }
}

/** The two record-array classes over the layout of module RecordArray. */
module RecordArrays {
  import opened Wrappers
  import opened RecordArray

  /** obj[name] || 0: a missing field is stored as 0. */
  function ObjValue(obj: map<string, int>, name: string): int
  {
    if name in obj then obj[name] else 0
  }

  function Prepend(fs: seq<Field>, r: Result<seq<Field>>): Result<seq<Field>>
  {
    match r
    case Ok(rest) => Ok(fs + rest)
    case Err(e) => Err(e)
  }

  lemma PrependTwice(a: seq<Field>, b: seq<Field>, r: Result<seq<Field>>)
    ensures Prepend(a, Prepend(b, r)) == Prepend(a + b, r)
    ensures Prepend([], r) == r
  {
    match r
    case Ok(v) =>
      assert a + (b + v) == (a + b) + v;
      assert [] + v == v;
    case Err(_) =>
  }

  class PackedRecordArray {
    const layout: Layout
    const size: nat
    const buffer: array<int>

    ghost predicate Valid()
    {
      WellFormed(layout) && buffer.Length == size * layout.elemSize
    }

    constructor Init(L: Layout, n: nat)
      requires WellFormed(L)
      ensures Valid() && layout == L && size == n && fresh(buffer)
      ensures forall x :: 0 <= x < buffer.Length ==> buffer[x] == 0
    {
      layout := L;
      size := n;
      buffer := new int[n * L.elemSize](_ => 0);
    }

    /** The constructor's first loop: reject unknown types and add up the widths. */
    static method CollectFields(input: seq<(string, string)>) returns (r: Result<(seq<Field>, nat)>)
      ensures r.Ok? <==> ParseFields(input).Ok?
      ensures r.Err? ==> r.error == ParseFields(input).error
      ensures r.Ok? ==> r.value.0 == ParseFields(input).value && r.value.1 == WidthSum(r.value.0)
    {
      var fs: seq<Field> := [];
      var total: nat := 0;
      var i := 0;
      assert input[0..] == input;
      PrependTwice([], [], ParseFields(input));
      while i < |input|
        invariant 0 <= i <= |input|
        invariant ParseFields(input) == Prepend(fs, ParseFields(input[i..]))
        invariant total == WidthSum(fs)
      {
        assert input[i..][1..] == input[i + 1..];
        var t := TypeByName(input[i].1);
        if t.None? {
          return Err("Unsupported type: " + input[i].1);
        }
        var f := Field(input[i].0, t.value);
        WidthSumAppend(fs, [f]);
        assert ParseFields(input[i..]) == Prepend([f], ParseFields(input[i + 1..]));
        PrependTwice(fs, [f], ParseFields(input[i + 1..]));
        fs := fs + [f];
        total := total + W(f);
        i := i + 1;
      }
      assert input[i..] == [];
      assert fs + [] == fs;
      return Ok((fs, total));
    }

    /** The constructor's second loop: field indexes, typed-array strides and offsets. */
    static method PlaceFields(sorted: seq<Field>, elemSize: nat)
      returns (typeElemSize: seq<nat>, typeOffset: seq<nat>, index: map<string, nat>)
      ensures typeElemSize == Strides(sorted, elemSize)
      ensures typeOffset == TypeOffsets(sorted)
      ensures index == IndexOf(sorted)
    {
      typeElemSize, typeOffset, index := [], [], map[];
      var currentOffset: nat := 0;
      for k := 0 to |sorted|
        invariant typeElemSize == Strides(sorted[..k], elemSize)
        invariant typeOffset == TypeOffsets(sorted[..k])
        invariant index == IndexOf(sorted[..k])
        invariant currentOffset == WidthSum(sorted[..k])
      {
        var w := W(sorted[k]);
        PlacedSnoc(sorted, elemSize, k);
        index := index[sorted[k].name := k];
        typeElemSize := typeElemSize + [elemSize / w];
        typeOffset := typeOffset + [currentOffset / w];
        currentOffset := currentOffset + w;
      }
      assert sorted[..|sorted|] == sorted;
    }

    /** new PackedRecordArray(fields, size): both loops, the sort and the rounding. */
    static method New(input: seq<(string, string)>, n: nat) returns (r: Result<PackedRecordArray>)
      requires DistinctNames(input)
      ensures r.Ok? <==> LayoutOf(input).Ok?
      ensures r.Err? ==> r.error == LayoutOf(input).error
      ensures r.Ok? ==> fresh(r.value) && fresh(r.value.buffer) && r.value.Valid()
      ensures r.Ok? ==> r.value.layout == LayoutOf(input).value && r.value.size == n
      ensures r.Ok? ==> forall x :: 0 <= x < r.value.buffer.Length ==> r.value.buffer[x] == 0
    {
      var collected := CollectFields(input);
      if collected.Err? {
        return Err(collected.error);
      }
      var (fs, total) := collected.value;
      var sorted := SortByWidth(fs);
      if sorted == [] {
        return Err("fields[0] is undefined");
      }
      var alignment := W(sorted[0]);
      var elemSize := CeilDiv(total, alignment) * alignment;
      var typeElemSize, typeOffset, index := PlaceFields(sorted, elemSize);
      var L := Layout(sorted, elemSize, typeElemSize, typeOffset, index);
      assert L == LayoutOf(input).value;
      LayoutWellFormed(input);
      var p := new PackedRecordArray.Init(L, n);
      return Ok(p);
    }

    /** The value field k of element i reads back. */
    /** m names exactly the fields of the layout, each with its value in element i. */
    ghost predicate Holds(i: nat, m: map<string, int>)
      requires Valid() && i < size
      reads buffer
    {
      && m.Keys == layout.index.Keys
      && forall l :: 0 <= l < |layout.fields| ==>
        layout.fields[l].name in m && m[layout.fields[l].name] == Cell(i, l)
    }

    function Cell(i: nat, k: nat): int
      requires Valid() && i < size && k < |layout.fields|
      reads buffer
    {
      SlotInBuffer(layout, size, i, k);
      buffer[Address(layout, i, k)]
    }

    /** One typed-array store: the bytes of field k of element idx, if idx is in range. */
    method Store(idx: int, k: nat, v: int)
      requires Valid() && k < |layout.fields|
      modifies buffer
      ensures 0 <= idx < size ==> forall j, l :: 0 <= j < size && 0 <= l < |layout.fields| ==>
        Cell(j, l) == if (j, l) == (idx, k) then Conv(layout.fields[k].typ, v) else old(Cell(j, l))
      ensures !(0 <= idx < size) ==> buffer[..] == old(buffer[..])
    {
      var w := W(layout.fields[k]);
      var slot := idx * layout.typeElemSize[k] + layout.typeOffset[k];
      TypedIndexInRange(layout, size, idx, k);
      if 0 <= slot < size * layout.typeElemSize[k] {
        var addr := w * slot;
        assert addr == Address(layout, idx, k);
        SlotInBuffer(layout, size, idx, k);
        ghost var before := buffer[..];
        var cv := Conv(layout.fields[k].typ, v);
        forall x | addr < x < addr + w {
          buffer[x] := 0;
        }
        buffer[addr] := cv;
        assert buffer[..] == StoreBytes(before, addr, w, cv);
        forall j, l | 0 <= j < size && 0 <= l < |layout.fields|
          ensures Cell(j, l) == if (j, l) == (idx, k) then cv else old(Cell(j, l))
        {
          ReadAfterStore(layout, size, before, idx, k, v, j, l);
        }
      }
    }

    /** setElementFieldValue: throws on an unknown field, otherwise one store. */
    method SetElementFieldValue(idx: int, name: string, value: int) returns (r: Result<()>)
      requires Valid()
      modifies buffer
      ensures r.Err? <==> name !in layout.index
      ensures r.Err? || !(0 <= idx < size) ==> buffer[..] == old(buffer[..])
      ensures r.Ok? && 0 <= idx < size ==> forall j, l :: 0 <= j < size && 0 <= l < |layout.fields| ==>
        Cell(j, l) == if (j, l) == (idx, layout.index[name]) then Conv(layout.fields[l].typ, value) else old(Cell(j, l))
    {
      if name !in layout.index {
        return Err("Unknown field: " + name);
      }
      Store(idx, layout.index[name], value);
      return Ok(());
    }

    /** getElementFieldValue: throws on an unknown field; out of range reads undefined. */
    method GetElementFieldValue(idx: int, name: string) returns (r: Result<Option<int>>)
      requires Valid()
      ensures r.Err? <==> name !in layout.index
      ensures r.Ok? ==> (r.value.Some? <==> 0 <= idx < size)
      ensures r.Ok? && 0 <= idx < size ==> r.value.value == Cell(idx, layout.index[name])
    {
      if name !in layout.index {
        return Err("Unknown field: " + name);
      }
      var k := layout.index[name];
      var slot := idx * layout.typeElemSize[k] + layout.typeOffset[k];
      TypedIndexInRange(layout, size, idx, k);
      if 0 <= slot < size * layout.typeElemSize[k] {
        SlotInBuffer(layout, size, idx, k);
        return Ok(Some(buffer[W(layout.fields[k]) * slot]));
      }
      return Ok(None);
    }

    /** setElement: every field of element idx, missing ones as 0. */
    method SetElement(idx: int, obj: map<string, int>)
      requires Valid()
      modifies buffer
      ensures !(0 <= idx < size) ==> buffer[..] == old(buffer[..])
      ensures 0 <= idx < size ==> forall j, l :: 0 <= j < size && 0 <= l < |layout.fields| ==>
        Cell(j, l) == if j == idx then Conv(layout.fields[l].typ, ObjValue(obj, layout.fields[l].name)) else old(Cell(j, l))
    {
      for k := 0 to |layout.fields|
        invariant !(0 <= idx < size) ==> buffer[..] == old(buffer[..])
        invariant 0 <= idx < size ==> forall j, l :: 0 <= j < size && 0 <= l < |layout.fields| ==>
          Cell(j, l) == if j == idx && l < k then Conv(layout.fields[l].typ, ObjValue(obj, layout.fields[l].name)) else old(Cell(j, l))
      {
        Store(idx, k, ObjValue(obj, layout.fields[k].name));
      }
    }

    /** getElement: every field of element idx, undefined out of range. */
    method GetElement(idx: int) returns (obj: map<string, Option<int>>)
      requires Valid()
      ensures forall l :: 0 <= l < |layout.fields| ==> layout.fields[l].name in obj
      ensures forall n :: n in obj ==> n in layout.index
      ensures forall l :: 0 <= l < |layout.fields| ==>
        obj[layout.fields[l].name] == if 0 <= idx < size then Some(Cell(idx, l)) else None
    {
      obj := map[];
      for k := 0 to |layout.fields|
        invariant forall l :: 0 <= l < k ==> layout.fields[l].name in obj
        invariant forall n :: n in obj ==> n in layout.index && layout.index[n] < k
        invariant forall l :: 0 <= l < k ==>
          obj[layout.fields[l].name] == if 0 <= idx < size then Some(Cell(idx, l)) else None
      {
        var name := layout.fields[k].name;
        var v := GetElementFieldValue(idx, name);
        obj := obj[name := v.value];
      }
    }
  }

  /**
   * ChunkedRecordArray: a growable list of PackedRecordArray chunks of
   * chunkSize elements each. Element idx lives in chunk idx / chunkSize at
   * position idx % chunkSize; the chunks are created lazily by resize.
   */
  class ChunkedRecordArray {
    const fields: seq<(string, string)>
    const chunkSize: nat
    var chunks: seq<PackedRecordArray>
    var size: nat
    /** The layout every chunk computes from fields, or why there is none. */
    ghost const shape: Result<Layout>
    ghost var Repr: set<object>

    ghost predicate Valid()
      reads this, Repr
    {
      && chunkSize > 0
      && this !in Repr
      && DistinctNames(fields)
      && (forall c :: c in chunks ==> c.buffer in Repr && c.Valid() && c.size == chunkSize)
      && shape == LayoutOf(fields)
      && (forall c :: c in chunks ==> shape == Ok(c.layout))
      && (forall i, j :: 0 <= i < j < |chunks| ==> chunks[i].buffer != chunks[j].buffer)
      && CeilDiv(size, chunkSize) <= |chunks|
    }

    /** The layout shared by every chunk. */
    ghost function Shape(): Layout
      requires shape.Ok?
    {
      shape.value
    }

    constructor (fields0: seq<(string, string)>, chunkSize0: nat)
      requires chunkSize0 > 0 && DistinctNames(fields0)
      ensures Valid() && fresh(Repr)
      ensures fields == fields0 && chunkSize == chunkSize0 && chunks == [] && size == 0
      ensures shape == LayoutOf(fields0)
    {
      fields := fields0;
      shape := LayoutOf(fields0);
      chunkSize := chunkSize0;
      chunks := [];
      size := 0;
      Repr := {};
    }

    /**
     * resize(newSize): pushes fresh chunks until there are
     * ceil(newSize / chunkSize), then sets size; a chunk that cannot be
     * built (unsupported or missing fields) throws before size changes.
     */
    method Resize(newSize: nat) returns (r: Result<()>)
      requires Valid()
      modifies this
      ensures Valid() && fresh(Repr - old(Repr))
      ensures |chunks| >= |old(chunks)| && chunks[..|old(chunks)|] == old(chunks)
      ensures r.Ok? <==> CeilDiv(newSize, chunkSize) <= |old(chunks)| || shape.Ok?
      ensures r.Ok? ==> size == newSize
      ensures r.Ok? ==> |chunks| == if CeilDiv(newSize, chunkSize) <= |old(chunks)| then |old(chunks)| else CeilDiv(newSize, chunkSize)
      ensures r.Err? ==> size == old(size) && chunks == old(chunks)
      ensures forall j :: |old(chunks)| <= j < |chunks| ==> Zeroed(chunks[j])
    {
      var chunkCount := CeilDiv(newSize, chunkSize);
      var i := |chunks|;
      while i < chunkCount
        invariant Valid() && fresh(Repr - old(Repr))
        invariant |chunks| == i && i >= |old(chunks)|
        invariant chunks[..|old(chunks)|] == old(chunks) && size == old(size)
        invariant i <= chunkCount || i == |old(chunks)|
        invariant i > |old(chunks)| ==> shape.Ok?
        invariant forall j :: |old(chunks)| <= j < |chunks| ==> Zeroed(chunks[j])
      {
        r := AddChunk();
        if r.Err? {
          return;
        }
        i := i + 1;
      }
      size := newSize;
      return Ok(());
    }

    /** One step of resize: chunks.push(new PackedRecordArray(fields, chunkSize)). */
    method AddChunk() returns (r: Result<()>)
      requires Valid()
      modifies this
      ensures Valid() && fresh(Repr - old(Repr)) && size == old(size)
      ensures r.Ok? <==> shape.Ok?
      ensures r.Err? ==> chunks == old(chunks)
      ensures r.Ok? ==> |chunks| == |old(chunks)| + 1 && chunks == old(chunks) + [chunks[|old(chunks)|]]
      ensures r.Ok? ==> Zeroed(chunks[|old(chunks)|])
    {
      var c := PackedRecordArray.New(fields, chunkSize);
      if c.Err? {
        return Err(c.error);
      }
      var chunk := c.value;
      assert Zeroed(chunk);
      chunks := chunks + [chunk];
      Repr := Repr + {chunk.buffer};
      assert chunks[|chunks| - 1] == chunk;
      return Ok(());
    }

    /**
     * setElementFieldValue: no growth; a missing chunk is a TypeError.
     * Element idx is position idx % chunkSize of chunk idx / chunkSize.
     */
    method SetElementFieldValue(idx: int, name: string, value: int) returns (r: Result<()>)
      requires Valid()
      modifies Repr
      ensures Valid()
      ensures r.Ok? <==> 0 <= idx < |chunks| * chunkSize && shape.Ok? && name in Shape().index
      ensures r.Err? ==> forall c :: c in chunks ==> c.buffer[..] == old(c.buffer[..])
      ensures r.Ok? ==> forall q, p, l :: 0 <= q < |chunks| && 0 <= p < chunkSize && 0 <= l < |Shape().fields| ==>
        chunks[q].Cell(p, l) == if (q, p, l) == (idx / chunkSize, idx % chunkSize, Shape().index[name])
          then Conv(Shape().fields[l].typ, value) else old(chunks[q].Cell(p, l))
    {
      var c := ChunkAt(idx);
      if c.None? {
        return Err("chunk is undefined");
      }
      var chunk := c.value;
      ghost var q0 := idx / chunkSize;
      ghost var cs := chunks;
      assert forall q :: 0 <= q < |cs| && q != q0 ==> cs[q].buffer != chunk.buffer;
      r := chunk.SetElementFieldValue(idx % chunkSize, name, value);
      assert cs == chunks;
      if r.Ok? {
        ghost var L := Shape();
        forall q, p, l | 0 <= q < |cs| && 0 <= p < chunkSize && 0 <= l < |L.fields|
          ensures cs[q].Cell(p, l) == if (q, p, l) == (q0, idx % chunkSize, L.index[name])
            then Conv(L.fields[l].typ, value) else old(cs[q].Cell(p, l))
        {
          if q == q0 {
            assert cs[q] == chunk;
          } else {
            assert cs[q].buffer != chunk.buffer;
          }
        }
      }
    }

    /** getElementFieldValue: a missing chunk is a TypeError, an unknown field throws. */
    method GetElementFieldValue(idx: int, name: string) returns (r: Result<int>)
      requires Valid()
      ensures r.Ok? <==> 0 <= idx < |chunks| * chunkSize && shape.Ok? && name in Shape().index
      ensures r.Ok? ==> 0 <= idx / chunkSize < |chunks| && chunks[idx / chunkSize].layout == Shape()
      ensures r.Ok? ==> r.value == chunks[idx / chunkSize].Cell(idx % chunkSize, Shape().index[name])
    {
      var c := ChunkAt(idx);
      if c.None? {
        return Err("chunk is undefined");
      }
      var v := c.value.GetElementFieldValue(idx % chunkSize, name);
      if v.Err? {
        return Err(v.error);
      }
      return Ok(v.value.value);
    }

    /** getElement: every field of element idx; a missing chunk is a TypeError. */
    method GetElement(idx: int) returns (r: Result<map<string, int>>)
      requires Valid()
      ensures r.Ok? <==> 0 <= idx < |chunks| * chunkSize
      ensures r.Ok? ==> shape.Ok? && 0 <= idx / chunkSize < |chunks|
      ensures r.Ok? ==> chunks[idx / chunkSize].layout == Shape()
      ensures r.Ok? ==> chunks[idx / chunkSize].Holds(idx % chunkSize, r.value)
    {
      var c := ChunkAt(idx);
      if c.None? {
        return Err("chunk is undefined");
      }
      var chunk := c.value;
      assert chunk in chunks;
      var p := idx % chunkSize;
      var obj := chunk.GetElement(p);
      var m := Unwrapped(chunk, p, obj);
      return Ok(m);
    }

    /**
     * setElement: grows the array to idx + 1 elements first when idx is past
     * the end, then writes every field of the element.
     */
    method SetElement(idx: int, obj: map<string, int>) returns (r: Result<()>)
      requires Valid()
      modifies this, Repr
      ensures Valid() && fresh(Repr - old(Repr))
      ensures r.Ok? <==> 0 <= idx && shape.Ok?
      ensures r.Ok? ==> size == if idx + 1 > old(size) then idx + 1 else old(size)
      ensures r.Ok? ==> |chunks| >= |old(chunks)| && chunks[..|old(chunks)|] == old(chunks)
      ensures r.Ok? ==> forall q, p, l :: 0 <= q < |chunks| && 0 <= p < chunkSize && 0 <= l < |Shape().fields| ==>
        chunks[q].Cell(p, l) == if (q, p) == (idx / chunkSize, idx % chunkSize)
          then Conv(Shape().fields[l].typ, ObjValue(obj, Shape().fields[l].name))
          else if q < |old(chunks)| then old(chunks[q].Cell(p, l)) else 0
      ensures r.Err? ==> size == old(size) && chunks == old(chunks)
      ensures r.Err? ==> forall c :: c in chunks ==> c.buffer[..] == old(c.buffer[..])
    {
      r := Reserve(idx);
      if r.Err? {
        return;
      }
      var c := ChunkAt(idx);
      if c.None? {
        return Err("chunk is undefined");
      }
      ghost var fs := Shape().fields;
      forall q, p, l | |old(chunks)| <= q < |chunks| && 0 <= p < chunkSize && 0 <= l < |fs|
        ensures chunks[q].Cell(p, l) == 0
      {
        assert chunks[q] in chunks;
        ZeroCell(chunks[q], p, l);
      }
      label grown:
      WriteElement(idx, obj);
      forall q, p, l | 0 <= q < |old(chunks)| && 0 <= p < chunkSize && 0 <= l < |fs|
        ensures old@grown(chunks[q].Cell(p, l)) == old(chunks[q].Cell(p, l))
      {
        assert chunks[q] == old(chunks)[q];
      }
      return Ok(());
    }

    /** The write loop of setElement on an element that exists: every field of element idx. */
    method WriteElement(idx: int, obj: map<string, int>)
      requires Valid() && 0 <= idx < |chunks| * chunkSize && shape.Ok?
      modifies Repr
      ensures Valid()
      ensures forall q, p, l :: 0 <= q < |chunks| && 0 <= p < chunkSize && 0 <= l < |Shape().fields| ==>
        chunks[q].Cell(p, l) == if (q, p) == (idx / chunkSize, idx % chunkSize)
          then Conv(Shape().fields[l].typ, ObjValue(obj, Shape().fields[l].name))
          else old(chunks[q].Cell(p, l))
    {
      var c := ChunkAt(idx);
      var chunk := c.value;
      var q0, p0 := idx / chunkSize, idx % chunkSize;
      ghost var fs := Shape().fields;
      chunk.SetElement(p0, obj);
      forall q, p, l | 0 <= q < |chunks| && 0 <= p < chunkSize && 0 <= l < |fs|
        ensures chunks[q].Cell(p, l) == if (q, p) == (q0, p0)
          then Conv(fs[l].typ, ObjValue(obj, fs[l].name))
          else old(chunks[q].Cell(p, l))
      {
        assert chunks[q] in chunks;
        if q != q0 {
          assert chunks[q].buffer != chunk.buffer;
        }
      }
    }

    /** The growth step of setElement: resize(idx + 1) when idx is past the end. */
    method Reserve(idx: int) returns (r: Result<()>)
      requires Valid()
      modifies this
      ensures Valid() && fresh(Repr - old(Repr))
      ensures r.Ok? <==> idx + 1 <= old(size) || shape.Ok?
      ensures r.Ok? ==> size == if idx + 1 > old(size) then idx + 1 else old(size)
      ensures r.Ok? && 0 <= idx ==> idx < |chunks| * chunkSize
      ensures |chunks| >= |old(chunks)| && chunks[..|old(chunks)|] == old(chunks)
      ensures forall j :: |old(chunks)| <= j < |chunks| ==> Zeroed(chunks[j])
      ensures r.Err? || idx + 1 <= old(size) ==> size == old(size) && chunks == old(chunks)
    {
      NoChunkWithoutLayout();
      if idx + 1 > size {
        r := Resize(idx + 1);
        if r.Ok? {
          CeilDivCovers(idx, chunkSize, idx + 1);
          AboveLastChunk(idx, chunkSize, |chunks|);
        }
      } else {
        r := Ok(());
        if idx >= 0 {
          CeilDivCovers(idx, chunkSize, size);
          AboveLastChunk(idx, chunkSize, |chunks|);
        }
      }
    }

    /** No chunk exists while the fields have no layout. */
    lemma NoChunkWithoutLayout()
      requires Valid()
      ensures shape.Err? ==> chunks == []
    {
      if chunks != [] {
        assert chunks[0] in chunks;
      }
    }

    /** The chunk holding element idx, or None where chunks[floor(idx / chunkSize)] is undefined. */
    method ChunkAt(idx: int) returns (c: Option<PackedRecordArray>)
      requires Valid()
      ensures c.Some? <==> 0 <= idx < |chunks| * chunkSize
      ensures c.Some? ==> 0 <= idx / chunkSize < |chunks| && c.value == chunks[idx / chunkSize]
      ensures c.Some? ==> shape.Ok? && c.value.layout == Shape()
    {
      if idx < 0 {
        NegativeChunk(idx, chunkSize);
        return None;
      }
      if idx / chunkSize >= |chunks| {
        if idx < |chunks| * chunkSize {
          DivBelow(idx, chunkSize, |chunks|);
        }
        return None;
      }
      AboveLastChunk(idx, chunkSize, |chunks|);
      var chunk := chunks[idx / chunkSize];
      assert chunk in chunks;
      return Some(chunk);
    }
  }

  /** Every byte of the chunk's buffer is zero. */
  ghost predicate Zeroed(c: PackedRecordArray)
    reads c.buffer
  {
    forall x :: 0 <= x < c.buffer.Length ==> c.buffer[x] == 0
  }

  lemma DivBelow(i: nat, cs: nat, n: nat)
    requires cs > 0 && i < n * cs
    ensures i / cs < n
  {
    if i / cs >= n {
      RecordArray.MulMono(n, i / cs, cs);
    }
  }

  /** Two indices with the same chunk and the same position are equal. */
  lemma SameSlot(j: int, idx: int, cs: nat)
    requires cs > 0
    ensures (j / cs == idx / cs && j % cs == idx % cs) <==> j == idx
  {
  }

  /** A negative index selects a negative (undefined) chunk. */
  lemma NegativeChunk(idx: int, cs: nat)
    requires cs > 0 && idx < 0
    ensures idx / cs < 0
  {
  }

  lemma AboveLastChunk(idx: nat, cs: nat, n: nat)
    requires cs > 0 && idx / cs < n
    ensures idx < n * cs
  {
    MulMono(idx / cs + 1, n, cs);
  }

  /** Position k of the layout's index names field k, and nothing else is indexed. */
  lemma IndexKeys(L: Layout)
    requires WellFormed(L)
    ensures forall l :: 0 <= l < |L.fields| ==> L.fields[l].name in L.index
  {
  }

  /** The values of a getElement result read at an element that exists. */
  function Unwrapped(c: PackedRecordArray, p: nat, obj: map<string, Option<int>>): (m: map<string, int>)
    requires c.Valid() && p < c.size
    requires forall l :: 0 <= l < |c.layout.fields| ==> c.layout.fields[l].name in obj
    requires forall n :: n in obj ==> n in c.layout.index
    requires forall l :: 0 <= l < |c.layout.fields| ==> obj[c.layout.fields[l].name] == Some(c.Cell(p, l))
    reads c.buffer
    ensures c.Holds(p, m)
  {
    IndexKeys(c.layout);
    map n | n in obj :: obj[n].value
  }

  /** A zeroed chunk reads 0 in every cell. */
  lemma ZeroCell(c: PackedRecordArray, p: nat, l: nat)
    requires c.Valid() && p < c.size && l < |c.layout.fields| && Zeroed(c)
    ensures c.Cell(p, l) == 0
  {
    SlotInBuffer(c.layout, c.size, p, l);
  }

  /** Element i of an array of s elements lies in one of its ceil(s / cs) chunks. */
  lemma CeilDivCovers(i: nat, cs: nat, s: nat)
    requires cs > 0 && i < s
    ensures i / cs < CeilDiv(s, cs)
  {
    var q := i / cs;
    assert q * cs <= i by { DivFloor(i, cs); }
    MulSucc(q, cs);
    DivLower(q + 1, s + cs - 1, cs);
  }

  lemma DivFloor(x: nat, c: nat)
    requires c > 0
    ensures (x / c) * c <= x < (x / c) * c + c
  {
  }

  /** q * c <= x implies q <= x / c. */
  lemma DivLower(q: nat, x: nat, c: nat)
    requires c > 0 && q * c <= x
    ensures q <= x / c
  {
    DivFloor(x, c);
    if x / c < q {
      MulMono(x / c + 1, q, c);
      MulSucc(x / c, c);
    }
  }
}
