/**
 * The walk over the short items of a HID report descriptor that both scanners of
 * the driver share (Device Class Definition for HID 1.11, section 6.2.2.2), and the
 * scan state both of them keep while walking.
 *
 * A short item is a header byte followed by 0, 1, 2 or 4 value bytes; the low two
 * bits of the header give the count, with code 3 meaning 4. The driver compares
 * WHOLE header bytes, so it recognises only the 1-byte-value forms of the tags below.
 *
 * Bounds: the driver never checks that an item's value fits in the buffer. This
 * model stops the walk, without interpreting it, at the first item whose value
 * would run past the end (an explicit truncation stop).
 */
module HidItems {

  // Header bytes the driver recognises (main items, HID 1.11 section 6.2.2.4)
  const COLLECTION: bv8 := 0xA1
  const END_COLLECTION: bv8 := 0xC0
  const FEATURE: bv8 := 0xB1
  // global items, HID 1.11 section 6.2.2.7
  const USAGE_PAGE: bv8 := 0x05
  const REPORT_ID: bv8 := 0x85
  const REPORT_SIZE: bv8 := 0x75
  const REPORT_COUNT: bv8 := 0x95
  // local item, HID 1.11 section 6.2.2.8
  const USAGE: bv8 := 0x09

  // Usage values on the Digitizers page
  const DIGITIZERS_PAGE: bv8 := 0x0D
  const TOUCH_PAD: bv8 := 0x05
  const TOUCH_SCREEN: bv8 := 0x04
  const DEVICE_CONFIGURATION: bv8 := 0x0E
  const INPUT_MODE: bv8 := 0x52

  /** Number of value bytes after a header byte: the size code `header & 3`, with 3 meaning 4. */
  function ValueLength(header: bv8): (n: nat)
  {
    var code := header & 3;
    if code == 0 then 0 else if code == 1 then 1 else if code == 2 then 2 else 4
  }

  /** The value length read as arithmetic on the header's numeric value: sizes 0, 1, 2 and 4 by `header mod 4`. */
  lemma ValueLengthBySizeCode(header: bv8)
    ensures ValueLength(header) == [0, 1, 2, 4][header as int % 4]
  {
  }

  /** One decoded item: its header byte at `pos`, its `len` value bytes right after it. */
  datatype Item = Item(pos: nat, tag: bv8, len: nat)
  {
    /** Position of the next item's header. */
    function End(): nat { pos + 1 + len }
  }

  /** `it` is an item of `d` that fits in it entirely. */
  ghost predicate Placed(d: seq<bv8>, it: Item)
  {
    it.pos < |d| && it.tag == d[it.pos] && it.len == ValueLength(it.tag) && it.End() <= |d|
  }

  ghost predicate ValidItems(d: seq<bv8>, items: seq<Item>)
  {
    forall k :: 0 <= k < |items| ==> Placed(d, items[k])
  }

  /**
   * The items the walk visits from position `i` on: it stops at the end of the
   * buffer or at the first item whose value bytes do not all fit. Each item starts
   * where the previous one ends, so the walk strictly advances.
   */
  function ItemsFrom(d: seq<bv8>, i: nat): (items: seq<Item>)
    requires i <= |d|
    ensures ValidItems(d, items)
    ensures |items| > 0 ==> items[0].pos == i
    ensures forall k :: 0 <= k < |items| ==> i <= items[k].pos
    decreases |d| - i
  {
    if i == |d| then []
    else
      var n := ValueLength(d[i]);
      if n > |d| - (i + 1) then []
      else [Item(i, d[i], n)] + ItemsFrom(d, i + 1 + n)
  }

  /** One step of the walk: the item at `i` and the rest, or nothing if that item is truncated. */
  lemma ItemsFromStep(d: seq<bv8>, i: nat)
    requires i < |d|
    ensures ValueLength(d[i]) > |d| - (i + 1) ==> ItemsFrom(d, i) == []
    ensures ValueLength(d[i]) <= |d| - (i + 1) ==>
      ItemsFrom(d, i) == [Item(i, d[i], ValueLength(d[i]))] + ItemsFrom(d, i + 1 + ValueLength(d[i]))
  {
  }

  /**
   * Bookkeeping for a scanner loop that has visited the items `done` and stands at
   * position `i`: the item at `i` is the next one of `items`.
   */
  lemma WalkAdvance(d: seq<bv8>, items: seq<Item>, done: seq<Item>, i: nat)
    requires i < |d| && ValueLength(d[i]) <= |d| - (i + 1)
    requires items == done + ItemsFrom(d, i)
    ensures |done| < |items| && items[|done|] == Item(i, d[i], ValueLength(d[i]))
    ensures items == (done + [items[|done|]]) + ItemsFrom(d, i + 1 + ValueLength(d[i]))
  {
    ItemsFromStep(d, i);
  }

  /** A scanner loop that stands at the end of the buffer or at a truncated item has visited every item. */
  lemma WalkStop(d: seq<bv8>, items: seq<Item>, done: seq<Item>, i: nat)
    requires i <= |d| && (i == |d| || ValueLength(d[i]) > |d| - (i + 1))
    requires items == done + ItemsFrom(d, i)
    ensures items == done
  {
  }

  /** Items do not overlap: each one ends before any later one starts. */
  lemma {:induction false} ItemsOrdered(d: seq<bv8>, i: nat, j: nat, k: nat)
    requires i <= |d| && j < k < |ItemsFrom(d, i)|
    ensures ItemsFrom(d, i)[j].End() <= ItemsFrom(d, i)[k].pos
    decreases |d| - i
  {
    var n := ValueLength(d[i]);
    if j > 0 {
      ItemsOrdered(d, i + 1 + n, j - 1, k - 1);
    }
  }

  /** All items of a descriptor, in order. */
  function Items(d: seq<bv8>): (items: seq<Item>)
  {
    ItemsFrom(d, 0)
  }

  /**
   * The first value byte of an item (the only one the driver reads), or 0 if it
   * has none; for items of `d` that fit (`Placed`) the byte is always in `d`.
   */
  function ValueOf(d: seq<bv8>, it: Item): bv8
  {
    if it.len == 0 || it.pos + 1 >= |d| then 0 else d[it.pos + 1]
  }

  /** The local state of the scanners. The rewriter keeps only `depth` and `usagePage` of it. */
  datatype ScanState = ScanState(
    depth: int,
    usagePage: bv8,
    lastUsage: bv8,
    reportId: bv8,
    reportSize: bv8,
    reportCount: bv8,
    inConfigTlc: bool)

  const Start := ScanState(0, 0, 0, 0, 0, 0, false)

  /** Collection nests one level deeper, End Collection one level out (the driver never checks for underflow). */
  function DepthStep(depth: int, tag: bv8): int
  {
    if tag == COLLECTION then depth + 1
    else if tag == END_COLLECTION then depth - 1
    else depth
  }

  /** Usage Page sets the current page until the next Usage Page. */
  function PageStep(page: bv8, tag: bv8, value: bv8): bv8
  {
    if tag == USAGE_PAGE then value else page
  }

  /**
   * The effect of one item on the scan state, field by field (the recognised
   * header bytes are distinct, so at most one field other than `inConfigTlc`
   * changes). A Collection that brings the depth to 1 right after Usage Page
   * Digitizers and Usage Device Configuration latches `inConfigTlc`; nothing
   * ever clears it.
   */
  function Step(st: ScanState, tag: bv8, value: bv8): ScanState
  {
    ScanState(
      depth := DepthStep(st.depth, tag),
      usagePage := PageStep(st.usagePage, tag, value),
      lastUsage := if tag == USAGE then value else st.lastUsage,
      reportId := if tag == REPORT_ID then value else st.reportId,
      reportSize := if tag == REPORT_SIZE then value else st.reportSize,
      reportCount := if tag == REPORT_COUNT then value else st.reportCount,
      inConfigTlc := st.inConfigTlc ||
        (tag == COLLECTION && st.depth + 1 == 1 &&
         st.usagePage == DIGITIZERS_PAGE && st.lastUsage == DEVICE_CONFIGURATION))
  }

  /** The scan state after the first `k` items, starting from the fresh state. */
  function StateAt(d: seq<bv8>, items: seq<Item>, k: nat): ScanState
    requires k <= |items|
  {
    if k == 0 then Start
    else Step(StateAt(d, items, k - 1), items[k - 1].tag, ValueOf(d, items[k - 1]))
  }

  /**
   * A descriptor without any Usage Page Digitizers item never reaches the
   * Digitizers page, and so never latches `inConfigTlc`.
   */
  lemma {:induction false} NoDigitizersPage(d: seq<bv8>, items: seq<Item>, k: nat)
    requires k <= |items|
    requires forall j :: 0 <= j < k && items[j].tag == USAGE_PAGE ==> ValueOf(d, items[j]) != DIGITIZERS_PAGE
    ensures StateAt(d, items, k).usagePage != DIGITIZERS_PAGE
    ensures !StateAt(d, items, k).inConfigTlc
  {
    if k > 0 {
      NoDigitizersPage(d, items, k - 1);
    }
  }
}
