/**
 * The element-wise array mutation of src/utils/array.rs. Each element type's
 * `ModifiableArray` implementation is a value of the ModifiableArray
 * datatype, chosen where `mod_arr` is called, as trait dispatch chooses it.
 */
module Arrays {
  import opened Wrappers

  type I8 = x: int | -0x80 <= x < 0x80
  type I32 = x: int | -0x8000_0000 <= x < 0x8000_0000

  const I8_MAX: int := 0x7F
  const I32_MAX: int := 0x7FFF_FFFF

  /** The panic of `*self += 1` at the type's largest value (overflow checks of a debug build). */
  datatype Panic = AddOverflow

  /** One implementation of the ModifiableArray trait: `modify_array` and `should_return_copy`. */
  datatype ModifiableArray<!T> = ModifiableArray(modifyArray: (T, nat) -> Result<T, Panic>, shouldReturnCopy: bool)

  /** `modify_array` for i8: `+= 1` at an odd index, which panics at 127. */
  function ModifyI8(x: I8, index: nat): (r: Result<I8, Panic>)
    ensures r.Err? <==> index % 2 == 1 && x == I8_MAX
    ensures r.Ok? ==> r.value == x + index % 2
  {
    if index % 2 == 1 then (if x < I8_MAX then Ok(x + 1) else Err(AddOverflow)) else Ok(x)
  }

  /** `modify_array` for i32: `+= 1` at an odd index, which panics at `i32::MAX`. */
  function ModifyI32(x: I32, index: nat): (r: Result<I32, Panic>)
    ensures r.Err? <==> index % 2 == 1 && x == I32_MAX
    ensures r.Ok? ==> r.value == x + index % 2
  {
    if index % 2 == 1 then (if x < I32_MAX then Ok(x + 1) else Err(AddOverflow)) else Ok(x)
  }

  /** `modify_array` for String: strings are not modified, at any index. */
  function ModifyString(s: string, index: nat): (r: Result<string, Panic>)
    ensures r.Ok? && r.value == s
  {
    Ok(s)
  }

  const I8_MODIFIABLE: ModifiableArray<I8> := ModifiableArray(ModifyI8, false)
  const I32_MODIFIABLE: ModifiableArray<I32> := ModifiableArray(ModifyI32, false)
  const STRING_MODIFIABLE: ModifiableArray<string> := ModifiableArray(ModifyString, true)

  lemma ShouldReturnCopy()
    ensures !I8_MODIFIABLE.shouldReturnCopy && !I32_MODIFIABLE.shouldReturnCopy
    ensures STRING_MODIFIABLE.shouldReturnCopy
  {
  }

  /** How the loop of `mod_arr` ends: past the last element, or in a panic at index `at`. */
  datatype Run<T> = Completed(items: seq<T>) | Panicked(at: nat, cause: Panic, items: seq<T>)

  /** The loop of `mod_arr` from index `i` on, over slice contents `s`. */
  function ModifyFrom<T>(m: ModifiableArray<T>, s: seq<T>, i: nat): (r: Run<T>)
    requires i <= |s|
    ensures |r.items| == |s| && r.items[..i] == s[..i]
    ensures r.Panicked? ==> i <= r.at < |s| && m.modifyArray(s[r.at], r.at) == Err(r.cause)
    decreases |s| - i
  {
    if i == |s| then Completed(s)
    else
      match m.modifyArray(s[i], i)
      case Ok(x) => ModifyFrom(m, s[i := x], i + 1)
      case Err(p) => Panicked(i, p, s)
  }

  /** What a call of `mod_arr` returns (or panics with), and what the slice holds afterwards. */
  datatype Outcome<T> = Outcome(returned: Result<Option<seq<T>>, Panic>, slice: seq<T>)

  /** The specification of `mod_arr` on a slice holding `s`. */
  function ModArrOutcome<T>(m: ModifiableArray<T>, s: seq<T>): (o: Outcome<T>)
    ensures |o.slice| == |s|
    ensures (o.returned.Ok? && o.returned.value.Some?) <==> m.shouldReturnCopy
    ensures m.shouldReturnCopy ==> o.returned.value.value == s && o.slice == s
  {
    if m.shouldReturnCopy then Outcome(Ok(Some(s)), s)
    else
      match ModifyFrom(m, s, 0)
      case Completed(t) => Outcome(Ok(None), t)
      case Panicked(_, p, t) => Outcome(Err(p), t)
  }

  /** `mod_arr`: a copy for element types that ask for one, otherwise each element modified in place. */
  method ModArr<T>(m: ModifiableArray<T>, a: array<T>) returns (r: Result<Option<seq<T>>, Panic>)
    modifies a
    ensures Outcome(r, a[..]) == ModArrOutcome(m, old(a[..]))
  {
    if m.shouldReturnCopy {
      return Ok(Some(a[..]));
    }
    var i := 0;
    while i < a.Length
      invariant 0 <= i <= a.Length
      invariant ModifyFrom(m, a[..], i) == ModifyFrom(m, old(a[..]), 0)
    {
      match m.modifyArray(a[i], i)
      case Ok(x) =>
        a[i] := x;
        i := i + 1;
      case Err(p) =>
        return Err(p);
    }
    return Ok(None);
  }

  /**
   * The loop modifies the elements one by one from index i: it completes
   * exactly when every modification succeeds, and a panic leaves the
   * elements before it modified and the rest as they were.
   */
  lemma {:induction false} ModifyFromEffect<T>(m: ModifiableArray<T>, s: seq<T>, i: nat)
    requires i <= |s|
    ensures match ModifyFrom(m, s, i)
      case Completed(t) =>
        && |t| == |s| && t[..i] == s[..i]
        && forall j :: i <= j < |s| ==> m.modifyArray(s[j], j) == Ok(t[j])
      case Panicked(k, p, t) =>
        && i <= k < |s| && m.modifyArray(s[k], k) == Err(p)
        && |t| == |s| && t[..i] == s[..i] && t[k..] == s[k..]
        && forall j :: i <= j < k ==> m.modifyArray(s[j], j) == Ok(t[j])
    decreases |s| - i
  {
    if i < |s| {
      match m.modifyArray(s[i], i)
      case Ok(x) =>
        ModifyFromEffect(m, s[i := x], i + 1);
      case Err(p) =>
    }
  }

  /** The slice `s` with its odd-index elements before index `k` incremented. */
  function IncrementOdd(s: seq<int>, k: nat): (t: seq<int>)
    ensures |t| == |s|
  {
    seq(|s|, j requires 0 <= j < |s| => if j < k && j % 2 == 1 then s[j] + 1 else s[j])
  }

  /** Index `k` holds an odd-index element at the type's largest value, where `+= 1` overflows. */
  predicate OverflowsAt(s: seq<int>, max: int, k: nat) {
    k < |s| && k % 2 == 1 && s[k] == max
  }

  /**
   * `mod_arr` on an i8 slice returns None exactly when no odd-index element
   * is 127; it then has incremented every odd-index element and left the
   * others alone. Otherwise it panics at the first such element, after
   * incrementing the odd-index elements before it.
   */
  lemma ModArrI8(s: seq<I8>)
    ensures var o := ModArrOutcome(I8_MODIFIABLE, s);
      && (o.returned == Ok(None) <==> forall k :: 0 <= k < |s| ==> !OverflowsAt(s, I8_MAX, k))
      && (o.returned == Ok(None) ==> o.slice == IncrementOdd(s, |s|))
      && (o.returned != Ok(None) ==>
            && o.returned == Err(AddOverflow)
            && exists k: nat :: OverflowsAt(s, I8_MAX, k) && (forall j :: 0 <= j < k ==> !OverflowsAt(s, I8_MAX, j))
                           && o.slice == IncrementOdd(s, k))
  {
    ModifyFromEffect(I8_MODIFIABLE, s, 0);
    match ModifyFrom(I8_MODIFIABLE, s, 0)
    case Completed(t) =>
      assert forall j :: 0 <= j < |s| ==> ModifyI8(s[j], j) == Ok(t[j]);
      assert t == IncrementOdd(s, |s|);
    case Panicked(k, p, t) =>
      assert ModifyI8(s[k], k) == Err(p);
      assert OverflowsAt(s, I8_MAX, k);
      assert forall j :: 0 <= j < k ==> ModifyI8(s[j], j) == Ok(t[j]);
      assert t == IncrementOdd(s, k) by {
        assert forall j :: k <= j < |s| ==> t[j] == t[k..][j - k];
      }
  }

  /** The same for an i32 slice, whose largest value is `i32::MAX`. */
  lemma ModArrI32(s: seq<I32>)
    ensures var o := ModArrOutcome(I32_MODIFIABLE, s);
      && (o.returned == Ok(None) <==> forall k :: 0 <= k < |s| ==> !OverflowsAt(s, I32_MAX, k))
      && (o.returned == Ok(None) ==> o.slice == IncrementOdd(s, |s|))
      && (o.returned != Ok(None) ==>
            && o.returned == Err(AddOverflow)
            && exists k: nat :: OverflowsAt(s, I32_MAX, k) && (forall j :: 0 <= j < k ==> !OverflowsAt(s, I32_MAX, j))
                           && o.slice == IncrementOdd(s, k))
  {
    ModifyFromEffect(I32_MODIFIABLE, s, 0);
    match ModifyFrom(I32_MODIFIABLE, s, 0)
    case Completed(t) =>
      assert forall j :: 0 <= j < |s| ==> ModifyI32(s[j], j) == Ok(t[j]);
      assert t == IncrementOdd(s, |s|);
    case Panicked(k, p, t) =>
      assert ModifyI32(s[k], k) == Err(p);
      assert OverflowsAt(s, I32_MAX, k);
      assert forall j :: 0 <= j < k ==> ModifyI32(s[j], j) == Ok(t[j]);
      assert t == IncrementOdd(s, k) by {
        assert forall j :: k <= j < |s| ==> t[j] == t[k..][j - k];
      }
  }

  /** `mod_arr` on a String slice returns a copy of it and changes nothing. */
  lemma ModArrString(s: seq<string>)
    ensures ModArrOutcome(STRING_MODIFIABLE, s) == Outcome(Ok(Some(s)), s)
  {
  }

  /** `mod_arr_str`: an owned String for every &str, in order. */
  function ModArrStr(a: seq<string>): (r: seq<string>)
    ensures |r| == |a|
    ensures forall i :: 0 <= i < |a| ==> r[i] == a[i]
  {
    seq(|a|, i requires 0 <= i < |a| => a[i])
  }
}
