/**
 * The rewriter that makes a precision touchpad announce itself as a touch screen:
 * a Usage Touch Pad (0x05) declared on the Digitizers page at depth 0 (the usage
 * that names a top-level collection) has its value byte overwritten in place with
 * Touch Screen (0x04). Only value bytes change, never a header byte, so the
 * descriptor keeps its length and its item boundaries.
 */
module UsageRewriter {
  import opened HidItems

  /** The rewriter overwrites the value of an item with header `tag` met at `depth` under `page`. */
  predicate Rewrites(depth: int, page: bv8, tag: bv8, value: bv8)
  {
    depth == 0 && tag == USAGE && page == DIGITIZERS_PAGE && value == TOUCH_PAD
  }

  /**
   * The positions the rewriter overwrites from position `i` on, met with the given
   * depth and usage page, as the driver walks: each one is the value byte of a
   * Usage item and holds Touch Pad.
   */
  function TargetsFrom(d: seq<bv8>, i: nat, depth: int, page: bv8): (t: set<nat>)
    requires i <= |d|
    decreases |d| - i
  {
    if i == |d| || ValueLength(d[i]) > |d| - (i + 1) then {}
    else
      var it := Item(i, d[i], ValueLength(d[i]));
      var value := ValueOf(d, it);
      (if Rewrites(depth, page, it.tag, value) then {i + 1} else {}) +
      TargetsFrom(d, it.End(), DepthStep(depth, it.tag), PageStep(page, it.tag, value))
  }

  /** Every position the walk from `i` overwrites lies after `i` and holds the value Touch Pad of a Usage item. */
  lemma {:induction false} TargetsAreTouchPadUsages(d: seq<bv8>, i: nat, depth: int, page: bv8)
    requires i <= |d|
    ensures forall p :: p in TargetsFrom(d, i, depth, page) ==>
      i < p < |d| && d[p] == TOUCH_PAD && d[p - 1] == USAGE
    decreases |d| - i
  {
    if i < |d| && ValueLength(d[i]) <= |d| - (i + 1) {
      var it := Item(i, d[i], ValueLength(d[i]));
      var value := ValueOf(d, it);
      TargetsAreTouchPadUsages(d, it.End(), DepthStep(depth, it.tag), PageStep(page, it.tag, value));
    }
  }

  /** One step of the rewriter's walk over an item that fits. */
  lemma TargetsFromStep(d: seq<bv8>, i: nat, depth: int, page: bv8)
    requires i < |d| && ValueLength(d[i]) <= |d| - (i + 1)
    ensures TargetsFrom(d, i, depth, page) ==
      (if Rewrites(depth, page, d[i], ValueOf(d, Item(i, d[i], ValueLength(d[i])))) then {i + 1} else {}) +
      TargetsFrom(d, i + 1 + ValueLength(d[i]), DepthStep(depth, d[i]),
        PageStep(page, d[i], ValueOf(d, Item(i, d[i], ValueLength(d[i])))))
  {
  }

  /**
   * Bookkeeping for the rewriter's loop: with `done` overwritten so far and the
   * walk standing at the item at `i`, that item's target joins `done`.
   */
  lemma TargetsAdvance(d: seq<bv8>, done: set<nat>, i: nat, depth: int, page: bv8, tag: bv8, size: nat,
                       value: bv8, next: nat, depth': int, page': bv8)
    requires i < |d| && tag == d[i] && size == ValueLength(tag) && size <= |d| - (i + 1)
    requires value == ValueOf(d, Item(i, tag, size))
    requires next == i + 1 + size && depth' == DepthStep(depth, tag) && page' == PageStep(page, tag, value)
    requires TargetsFrom(d, 0, 0, 0) == done + TargetsFrom(d, i, depth, page)
    ensures TargetsFrom(d, 0, 0, 0) ==
      (done + (if Rewrites(depth, page, tag, value) then {i + 1} else {})) + TargetsFrom(d, next, depth', page')
  {
    TargetsFromStep(d, i, depth, page);
  }

  /** The positions the rewriter overwrites in descriptor `d`. */
  function Targets(d: seq<bv8>): set<nat>
  {
    TargetsFrom(d, 0, 0, 0)
  }

  /** `d` with Touch Screen written at the positions in `t`. */
  function Overwrite(d: seq<bv8>, t: set<nat>): seq<bv8>
  {
    seq(|d|, p requires 0 <= p < |d| => if p in t then TOUCH_SCREEN else d[p])
  }

  /** The descriptor after the rewriter has run over it. */
  function Patched(d: seq<bv8>): seq<bv8>
  {
    Overwrite(d, Targets(d))
  }

  /**
   * Buffer contents `s` are the original contents `orig` with Touch Screen written
   * at the descriptor positions in `done` (descriptor `d` sits at `start`).
   */
  ghost predicate Agrees(s: seq<bv8>, orig: seq<bv8>, start: nat, d: seq<bv8>, done: set<nat>)
  {
    |s| == |orig| && start + |d| <= |s| &&
    forall p :: 0 <= p < |s| ==>
      s[p] == if start <= p < start + |d| && p - start in done then TOUCH_SCREEN else orig[p]
  }

  /** Writing Touch Screen at descriptor position `at` adds `at` to the overwritten positions. */
  lemma AgreesWrite(s: seq<bv8>, orig: seq<bv8>, start: nat, d: seq<bv8>, done: set<nat>, at: nat, hit: bool)
    requires Agrees(s, orig, start, d, done)
    requires hit ==> at < |d|
    ensures Agrees(if hit then s[start + at := TOUCH_SCREEN] else s, orig, start, d,
      done + (if hit then {at} else {}))
  {
  }

  /** With every target overwritten, the buffer holds the patched descriptor and nothing else changed. */
  lemma AgreesPatched(s: seq<bv8>, orig: seq<bv8>, start: nat, d: seq<bv8>)
    requires Agrees(s, orig, start, d, Targets(d))
    requires orig[start..start + |d|] == d
    ensures s[..start] == orig[..start] && s[start + |d|..] == orig[start + |d|..]
    ensures s[start..start + |d|] == Patched(d)
  {
  }

  /**
   * The rewriter over the `len` descriptor bytes at `a[start..]`, in place. It
   * answers whether it changed anything; no byte outside the descriptor changes.
   */
  method PatchDescriptor(a: array<bv8>, start: nat, len: nat) returns (patched: bool)
    requires start + len <= a.Length
    modifies a
    ensures a[..start] == old(a[..start]) && a[start + len..] == old(a[start + len..])
    ensures a[start..start + len] == Patched(old(a[start..start + len]))
    ensures patched == (Targets(old(a[start..start + len])) != {})
  {
    ghost var d := a[start..start + len];
    ghost var orig := a[..];
    ghost var done: set<nat> := {};
    var depth: int := 0;
    var usagePage: bv8 := 0;
    patched := false;
    var i: nat := 0;
    while i < len
      invariant i <= len
      invariant Targets(d) == done + TargetsFrom(d, i, depth, usagePage)
      invariant forall p :: p in done ==> p < i
      invariant patched == (done != {})
      invariant Agrees(a[..], orig, start, d, done)
      decreases len - i
    {
      ghost var here := i;
      var tag := a[start + i];
      assert tag == d[here];
      i := i + 1;
      var size := ValueLength(tag);
      if size > len - i {
        // truncated item: stop the walk
        assert Targets(d) == done;
        break;
      }
      var at := i;
      i := i + size;
      ghost var value := ValueOf(d, Item(here, tag, size));
      assert size > 0 ==> value == d[at] == a[start + at];
      ghost var hit := Rewrites(depth, usagePage, tag, value);
      ghost var depth0, page0, before := depth, usagePage, a[..];
      AgreesWrite(before, orig, start, d, done, at, hit);
      if tag == COLLECTION {
        depth := depth + 1;
      } else if tag == END_COLLECTION {
        depth := depth - 1;
      } else if tag == USAGE_PAGE {
        usagePage := a[start + at];
      } else if depth == 0 && tag == USAGE {
        if usagePage == DIGITIZERS_PAGE && a[start + at] == TOUCH_PAD {
          a[start + at] := TOUCH_SCREEN;
          patched := true;
        }
      }
      assert depth == DepthStep(depth0, tag) && usagePage == PageStep(page0, tag, value);
      assert a[..] == if hit then before[start + at := TOUCH_SCREEN] else before;
      assert patched == (done != {} || hit);
      TargetsAdvance(d, done, here, depth0, page0, tag, size, value, i, depth, usagePage);
      done := done + (if hit then {at} else {});
    }
    assert Targets(d) == done;
    AgreesPatched(a[..], orig, start, d);
    assert a[..start] == old(a[..start]);
    assert a[start + len..] == old(a[start + len..]);
  }

  /** Item `k` is a Usage Touch Pad met at depth 0 on the Digitizers page. */
  predicate EligibleAt(d: seq<bv8>, items: seq<Item>, k: nat)
    requires k < |items|
  {
    var st := StateAt(d, items, k);
    Rewrites(st.depth, st.usagePage, items[k].tag, ValueOf(d, items[k]))
  }

  /** Position of the value byte of item `k`. */
  function ValuePos(items: seq<Item>, k: nat): nat
    requires k < |items|
  {
    items[k].pos + 1
  }

  /** The value positions of the eligible items from index `k` on. */
  function EligibleFrom(d: seq<bv8>, items: seq<Item>, k: nat): set<nat>
    requires k <= |items|
    decreases |items| - k
  {
    if k == |items| then {}
    else (if EligibleAt(d, items, k) then {ValuePos(items, k)} else {}) + EligibleFrom(d, items, k + 1)
  }

  /**
   * The driver's walk and the item list agree: standing at item `|done|` with the
   * depth and page the earlier items produce, the walk overwrites exactly the
   * value bytes of the eligible items that remain.
   */
  lemma {:induction false} TargetsFromIsEligible(d: seq<bv8>, i: nat, done: seq<Item>)
    requires i <= |d| && Items(d) == done + ItemsFrom(d, i)
    ensures TargetsFrom(d, i, StateAt(d, Items(d), |done|).depth, StateAt(d, Items(d), |done|).usagePage)
      == EligibleFrom(d, Items(d), |done|)
    decreases |d| - i
  {
    var items := Items(d);
    var st := StateAt(d, items, |done|);
    if i == |d| || ValueLength(d[i]) > |d| - (i + 1) {
      WalkStop(d, items, done, i);
    } else {
      WalkAdvance(d, items, done, i);
      var it := items[|done|];
      var v := ValueOf(d, it);
      var next := StateAt(d, items, |done| + 1);
      assert next == Step(st, it.tag, v);
      assert next.depth == DepthStep(st.depth, it.tag) && next.usagePage == PageStep(st.usagePage, it.tag, v);
      TargetsFromStep(d, i, st.depth, st.usagePage);
      assert EligibleAt(d, items, |done|) == Rewrites(st.depth, st.usagePage, it.tag, v);
      assert EligibleFrom(d, items, |done|) ==
        (if EligibleAt(d, items, |done|) then {i + 1} else {}) + EligibleFrom(d, items, |done| + 1);
      TargetsFromIsEligible(d, it.End(), done + [it]);
    }
  }

  lemma {:induction false} EligibleFromMembers(d: seq<bv8>, items: seq<Item>, k: nat, p: nat)
    requires k <= |items|
    ensures p in EligibleFrom(d, items, k) <==>
      exists j :: k <= j < |items| && EligibleAt(d, items, j) && ValuePos(items, j) == p
    decreases |items| - k
  {
    if k < |items| {
      var here: set<nat> := if EligibleAt(d, items, k) then {ValuePos(items, k)} else {};
      assert EligibleFrom(d, items, k) == here + EligibleFrom(d, items, k + 1);
      EligibleFromMembers(d, items, k + 1, p);
      if p in EligibleFrom(d, items, k) {
        if p in here {
          assert EligibleAt(d, items, k) && ValuePos(items, k) == p;
        } else {
          var j :| k + 1 <= j < |items| && EligibleAt(d, items, j) && ValuePos(items, j) == p;
          assert k <= j;
        }
      }
      if exists j :: k <= j < |items| && EligibleAt(d, items, j) && ValuePos(items, j) == p {
        var j :| k <= j < |items| && EligibleAt(d, items, j) && ValuePos(items, j) == p;
        if j == k {
          assert p in here;
        } else {
          assert p in EligibleFrom(d, items, k + 1);
        }
      }
    }
  }

  /**
   * The rewriter overwrites exactly the value bytes of the Usage Touch Pad items
   * met at depth 0 while the usage page is Digitizers.
   */
  lemma TargetsAreEligibleUsages(d: seq<bv8>, p: nat)
    ensures p in Targets(d) <==>
      exists k :: 0 <= k < |Items(d)| && EligibleAt(d, Items(d), k) && ValuePos(Items(d), k) == p
  {
    TargetsFromIsEligible(d, 0, []);
    EligibleFromMembers(d, Items(d), 0, p);
  }

  /**
   * The rewriter keeps the length, changes only Touch Pad usage values, each
   * into Touch Screen, and leaves every other byte as it was.
   */
  lemma PatchChangesOnlyTargets(d: seq<bv8>)
    ensures |Patched(d)| == |d|
    ensures forall p :: 0 <= p < |d| && p !in Targets(d) ==> Patched(d)[p] == d[p]
    ensures forall p :: 0 <= p < |d| && p in Targets(d) ==>
      0 < p && d[p - 1] == USAGE && d[p] == TOUCH_PAD && Patched(d)[p] == TOUCH_SCREEN
  {
    TargetsAreTouchPadUsages(d, 0, 0, 0);
  }

  /** The rewriter reports a change exactly when the descriptor changed. */
  lemma PatchReportsChange(d: seq<bv8>)
    ensures Targets(d) != {} <==> Patched(d) != d
  {
    TargetsAreTouchPadUsages(d, 0, 0, 0);
    if Targets(d) != {} {
      var p :| p in Targets(d);
      assert Patched(d)[p] != d[p];
    } else {
      assert Patched(d) == d;
    }
  }

  /** From position `i` on, `e` is `d` with Touch Screen written at the positions in `t`. */
  ghost predicate RewrittenFrom(d: seq<bv8>, e: seq<bv8>, i: nat, t: set<nat>)
  {
    |d| == |e| && i <= |d| &&
    forall p :: i <= p < |d| ==> e[p] == if p in t then TOUCH_SCREEN else d[p]
  }

  /** Dropping positions before `j` from the overwritten set keeps the relation from `j` on. */
  lemma RewrittenSuffix(d: seq<bv8>, e: seq<bv8>, i: nat, t: set<nat>, j: nat, h: set<nat>, rest: set<nat>)
    requires RewrittenFrom(d, e, i, t) && i <= j <= |d|
    requires t == h + rest && forall p :: p in h ==> p < j
    ensures RewrittenFrom(d, e, j, rest)
  {
  }

  /**
   * One step over `e`, which is `d` with the walk's targets from `i` overwritten:
   * the header is unchanged, the value read is Touch Screen exactly where the walk
   * over `d` rewrites, and the relation carries on from the next item.
   */
  lemma RewrittenStep(d: seq<bv8>, e: seq<bv8>, i: nat, depth: int, page: bv8)
    requires i < |d| == |e| && RewrittenFrom(d, e, i, TargetsFrom(d, i, depth, page))
    ensures e[i] == d[i]
    ensures ValueLength(d[i]) <= |d| - (i + 1) ==>
      var it := Item(i, d[i], ValueLength(d[i]));
      var v := ValueOf(d, it);
      ValueOf(e, it) == (if Rewrites(depth, page, it.tag, v) then TOUCH_SCREEN else v) &&
      RewrittenFrom(d, e, it.End(), TargetsFrom(d, it.End(), DepthStep(depth, it.tag), PageStep(page, it.tag, v)))
  {
    var t := TargetsFrom(d, i, depth, page);
    TargetsAreTouchPadUsages(d, i, depth, page);
    assert i !in t;
    var n := ValueLength(d[i]);
    if n <= |d| - (i + 1) {
      var it := Item(i, d[i], n);
      var v := ValueOf(d, it);
      var depth', page' := DepthStep(depth, it.tag), PageStep(page, it.tag, v);
      var h: set<nat> := if Rewrites(depth, page, it.tag, v) then {i + 1} else {};
      var rest := TargetsFrom(d, it.End(), depth', page');
      TargetsFromStep(d, i, depth, page);
      TargetsAreTouchPadUsages(d, it.End(), depth', page');
      assert t == h + rest;
      if n > 0 {
        assert i + 1 !in rest;
      }
      RewrittenSuffix(d, e, i, t, it.End(), h, rest);
    }
  }

  /**
   * Running the walk over `e`, which is `d` with the walk's targets from `i`
   * overwritten, meets the same items and finds nothing left to overwrite.
   */
  lemma {:induction false} RepatchFrom(d: seq<bv8>, e: seq<bv8>, i: nat, depth: int, page: bv8)
    requires i <= |d| == |e| && RewrittenFrom(d, e, i, TargetsFrom(d, i, depth, page))
    ensures ItemsFrom(e, i) == ItemsFrom(d, i)
    ensures TargetsFrom(e, i, depth, page) == {}
    decreases |d| - i
  {
    if i < |d| {
      RewrittenStep(d, e, i, depth, page);
      var n := ValueLength(d[i]);
      ItemsFromStep(d, i);
      ItemsFromStep(e, i);
      if n <= |d| - (i + 1) {
        var it := Item(i, d[i], n);
        var v := ValueOf(d, it);
        var w := ValueOf(e, it);
        TargetsFromStep(e, i, depth, page);
        assert !Rewrites(depth, page, it.tag, w);
        assert PageStep(page, it.tag, w) == PageStep(page, it.tag, v);
        RepatchFrom(d, e, it.End(), DepthStep(depth, it.tag), PageStep(page, it.tag, v));
      }
    }
  }

  /**
   * The rewriter is idempotent, and it keeps every item where it was: the same
   * headers at the same positions, so the descriptor's structure is unchanged.
   */
  lemma PatchIdempotent(d: seq<bv8>)
    ensures Items(Patched(d)) == Items(d)
    ensures Targets(Patched(d)) == {}
    ensures Patched(Patched(d)) == Patched(d)
  {
    assert RewrittenFrom(d, Patched(d), 0, Targets(d));
    RepatchFrom(d, Patched(d), 0, 0, 0);
    assert Patched(Patched(d)) == Patched(d);
  }

  /** The value byte of a Usage item lies outside every other item. */
  lemma UsageValueOutside(d: seq<bv8>, j: nat, k: nat)
    requires j < |Items(d)| && k < |Items(d)| && j != k && Items(d)[j].tag == USAGE
    ensures ValuePos(Items(d), j) < Items(d)[k].pos || Items(d)[k].End() <= ValuePos(Items(d), j)
  {
    var items := Items(d);
    assert Placed(d, items[j]);
    assert items[j].len == 1;
    if j < k {
      ItemsOrdered(d, 0, j, k);
    } else {
      ItemsOrdered(d, 0, k, j);
    }
  }

  /** No byte of an item met inside a collection (depth other than 0) is ever rewritten. */
  lemma NestedItemsUntouched(d: seq<bv8>, k: nat)
    requires k < |Items(d)| && StateAt(d, Items(d), k).depth != 0
    ensures forall p :: Items(d)[k].pos <= p < Items(d)[k].End() ==> Patched(d)[p] == d[p]
  {
    var items := Items(d);
    forall p | items[k].pos <= p < items[k].End()
      ensures Patched(d)[p] == d[p]
    {
      TargetsAreEligibleUsages(d, p);
      if p in Targets(d) {
        var j :| 0 <= j < |items| && EligibleAt(d, items, j) && ValuePos(items, j) == p;
        UsageValueOutside(d, j, k);
      }
    }
  }

  /** A descriptor without any Usage Page Digitizers item is left as it is, and the rewriter says so. */
  lemma NoDigitizersNoPatch(d: seq<bv8>)
    requires forall k :: 0 <= k < |Items(d)| && Items(d)[k].tag == USAGE_PAGE ==>
      ValueOf(d, Items(d)[k]) != DIGITIZERS_PAGE
    ensures Targets(d) == {}
    ensures Patched(d) == d
  {
    var items := Items(d);
    if Targets(d) != {} {
      var p :| p in Targets(d);
      TargetsAreEligibleUsages(d, p);
      var j :| 0 <= j < |items| && EligibleAt(d, items, j) && ValuePos(items, j) == p;
      NoDigitizersPage(d, items, j);
      assert false;
    }
    PatchReportsChange(d);
  }

  /** A touchpad collection header: Usage Page Digitizers, Usage Touch Pad, Collection Application, End Collection. */
  lemma PatchExample()
    ensures Targets([0x05, 0x0D, 0x09, 0x05, 0xA1, 0x01, 0xC0]) == {3}
    ensures Patched([0x05, 0x0D, 0x09, 0x05, 0xA1, 0x01, 0xC0]) == [0x05, 0x0D, 0x09, 0x04, 0xA1, 0x01, 0xC0]
  {
    var d: seq<bv8> := [0x05, 0x0D, 0x09, 0x05, 0xA1, 0x01, 0xC0];
    TargetsFromStep(d, 0, 0, 0);
    TargetsFromStep(d, 2, 0, 0x0D);
    TargetsFromStep(d, 4, 0, 0x0D);
    TargetsFromStep(d, 6, 1, 0x0D);
    assert TargetsFrom(d, 7, 0, 0x0D) == {};
    assert Targets(d) == {3};
  }

  /**
   * The rewriter's walk as the driver runs it, over memory `m` whose first `len`
   * bytes are the descriptor. The loop stops only once `i` reaches `len`, and
   * reads each item's value without checking it against `len`. So the value of
   * a truncated trailing Usage header is read, and perhaps rewritten, in the
   * memory after the descriptor. The walk gives up where the value would run past
   * the end of `m` itself.
   */
  function TargetsAsWritten(m: seq<bv8>, len: nat, i: nat, depth: int, page: bv8): set<nat>
    requires len <= |m| && i <= |m|
    decreases |m| - i
  {
    if i >= len || ValueLength(m[i]) > |m| - (i + 1) then {}
    else
      var it := Item(i, m[i], ValueLength(m[i]));
      var value := ValueOf(m, it);
      (if Rewrites(depth, page, it.tag, value) then {i + 1} else {}) +
      TargetsAsWritten(m, len, it.End(), DepthStep(depth, it.tag), PageStep(page, it.tag, value))
  }

  /** When the descriptor is all of the memory, the walk as written is the model's walk. */
  lemma {:induction false} AsWrittenWithinDescriptor(d: seq<bv8>, i: nat, depth: int, page: bv8)
    requires i <= |d|
    ensures TargetsAsWritten(d, |d|, i, depth, page) == TargetsFrom(d, i, depth, page)
    decreases |d| - i
  {
    if i < |d| && ValueLength(d[i]) <= |d| - (i + 1) {
      var it := Item(i, d[i], ValueLength(d[i]));
      var value := ValueOf(d, it);
      AsWrittenWithinDescriptor(d, it.End(), DepthStep(depth, it.tag), PageStep(page, it.tag, value));
    }
  }

  /**
   * The descriptor `05 0D 09` ends in a Usage header without its value. When
   * the next byte in memory is 05, the driver rewrites that byte, outside the
   * descriptor, and reports a change. The model's walk stops at the truncated
   * item and rewrites nothing.
   */
  lemma RewritePastDescriptor()
    ensures TargetsAsWritten([0x05, 0x0D, 0x09, 0x05], 3, 0, 0, 0) == {3}
    ensures Targets([0x05, 0x0D, 0x09]) == {}
  {
    var m: seq<bv8> := [0x05, 0x0D, 0x09, 0x05];
    assert TargetsAsWritten(m, 3, 4, 0, 0x0D) == {};
    assert TargetsAsWritten(m, 3, 2, 0, 0x0D) == {3};
    TargetsFromStep([0x05, 0x0D, 0x09], 0, 0, 0);
  }
}
