/**
 * The locator of the "Input Mode" feature field (usage 0x52 on the Digitizers
 * page), which the Windows Precision Touchpad specification uses to switch a
 * touchpad out of mouse emulation. It walks the descriptor once, keeps the scan
 * state, and answers at the first Feature item that follows usage Input Mode once
 * the Device Configuration top-level collection has been entered.
 */
module InputModeLocator {
  import opened Wrappers
  import opened HidItems

  /** Where the Input Mode field lives: its report's ID and the field's width in bytes. */
  datatype InputModeField = InputModeField(reportId: bv8, width: nat)

  /** Bytes needed for a field of `reportSize` bits: `(reportSize + 7) / 8`, the ceiling of a division by 8. */
  function FieldWidth(reportSize: bv8): (w: nat)
    ensures 8 * w >= reportSize as int
    ensures 8 * w < reportSize as int + 8
  {
    (reportSize as nat + 7) / 8
  }

  /** The item with header `tag`, met in state `st`, is the Input Mode feature field. */
  predicate SelectsInputMode(st: ScanState, tag: bv8)
  {
    st.inConfigTlc && tag == FEATURE && st.lastUsage == INPUT_MODE
  }

  /** Item `k` of `items` is the Input Mode feature field. */
  predicate SelectsAt(d: seq<bv8>, items: seq<Item>, k: nat)
    requires k < |items|
  {
    SelectsInputMode(StateAt(d, items, k), items[k].tag)
  }

  /**
   * Item `k` opens the Device Configuration top-level collection: a Collection
   * met at depth 0 right after Usage Page Digitizers and Usage Device Configuration.
   */
  predicate OpensConfigAt(d: seq<bv8>, items: seq<Item>, k: nat)
    requires k < |items|
  {
    var st := StateAt(d, items, k);
    items[k].tag == COLLECTION && st.depth == 0 &&
    st.usagePage == DIGITIZERS_PAGE && st.lastUsage == DEVICE_CONFIGURATION
  }

  /** The Report ID and field width in force when item `k` is met. */
  function FieldAt(d: seq<bv8>, items: seq<Item>, k: nat): InputModeField
    requires k <= |items|
  {
    var st := StateAt(d, items, k);
    InputModeField(st.reportId, FieldWidth(st.reportSize))
  }

  /** The first item from index `k` on that selects Input Mode, with the state it is met in. */
  function SearchFrom(d: seq<bv8>, items: seq<Item>, k: nat): Option<InputModeField>
    requires k <= |items|
    decreases |items| - k
  {
    if k == |items| then None
    else
      if SelectsAt(d, items, k) then Some(FieldAt(d, items, k))
      else SearchFrom(d, items, k + 1)
  }

  /**
   * The locator's walk from position `i` in state `st`, as the driver runs it:
   * answer at the first item that selects Input Mode, otherwise apply the item to
   * the state and go on; stop with nothing at the end or at a truncated item.
   */
  function ScanFrom(d: seq<bv8>, i: nat, st: ScanState): Option<InputModeField>
    requires i <= |d|
    decreases |d| - i
  {
    if i == |d| || ValueLength(d[i]) > |d| - (i + 1) then None
    else
      var it := Item(i, d[i], ValueLength(d[i]));
      if SelectsInputMode(st, it.tag) then Some(InputModeField(st.reportId, FieldWidth(st.reportSize)))
      else ScanFrom(d, it.End(), Step(st, it.tag, ValueOf(d, it)))
  }

  /** One step of the locator's walk past an item that fits and does not select Input Mode. */
  lemma ScanAdvance(d: seq<bv8>, i: nat, st: ScanState, tag: bv8, size: nat, value: bv8, next: nat, st': ScanState)
    requires i < |d| && tag == d[i] && size == ValueLength(tag) && size <= |d| - (i + 1)
    requires value == ValueOf(d, Item(i, tag, size)) && !SelectsInputMode(st, tag)
    requires next == i + 1 + size && st' == Step(st, tag, value)
    ensures ScanFrom(d, i, st) == ScanFrom(d, next, st')
  {
  }

  /** What the locator reports for descriptor `d`. */
  function InputMode(d: seq<bv8>): Option<InputModeField>
  {
    ScanFrom(d, 0, Start)
  }

  /**
   * The locator over the `len` descriptor bytes at `a[start..]`. It only reads
   * the buffer, and returns at the first qualifying Feature item.
   */
  method GetInputMode(a: array<bv8>, start: nat, len: nat) returns (result: Option<InputModeField>)
    requires start + len <= a.Length
    ensures result == InputMode(a[start..start + len])
  {
    ghost var d := a[start..start + len];
    var depth: int := 0;
    var usagePage: bv8 := 0;
    var reportId: bv8 := 0;
    var reportSize: bv8 := 0;
    var reportCount: bv8 := 0;
    var lastUsage: bv8 := 0;
    var inConfigTlc := false;
    var i: nat := 0;
    while i < len
      invariant i <= len
      invariant InputMode(d) ==
        ScanFrom(d, i, ScanState(depth, usagePage, lastUsage, reportId, reportSize, reportCount, inConfigTlc))
      decreases len - i
    {
      ghost var here := i;
      ghost var st := ScanState(depth, usagePage, lastUsage, reportId, reportSize, reportCount, inConfigTlc);
      var tag := a[start + i];
      i := i + 1;
      var size := ValueLength(tag);
      if size > len - i {
        // truncated item: stop the walk
        break;
      }
      var at := i;
      i := i + size;
      ghost var value := ValueOf(d, Item(here, tag, size));
      assert size > 0 ==> value == a[start + at];
      if tag == COLLECTION {
        depth := depth + 1;
        if depth == 1 && usagePage == DIGITIZERS_PAGE && lastUsage == DEVICE_CONFIGURATION {
          inConfigTlc := true;
        }
      } else if tag == END_COLLECTION {
        depth := depth - 1;
      } else if tag == USAGE_PAGE {
        usagePage := a[start + at];
      } else if tag == USAGE {
        lastUsage := a[start + at];
      } else if tag == REPORT_ID {
        reportId := a[start + at];
      } else if tag == REPORT_SIZE {
        reportSize := a[start + at];
      } else if tag == REPORT_COUNT {
        reportCount := a[start + at];
      } else if inConfigTlc && tag == FEATURE && lastUsage == INPUT_MODE {
        return Some(InputModeField(reportId, FieldWidth(reportSize)));
      }
      ScanAdvance(d, here, st, tag, size, value, i,
        ScanState(depth, usagePage, lastUsage, reportId, reportSize, reportCount, inConfigTlc));
    }
    return None;
  }

  /**
   * The driver's walk agrees with the first-match search over the item list: a
   * scan that stands at item `|done|` in the state the earlier items produce
   * gives the same answer as searching the remaining items.
   */
  lemma {:induction false} ScanFromIsSearch(d: seq<bv8>, i: nat, done: seq<Item>)
    requires i <= |d| && Items(d) == done + ItemsFrom(d, i)
    ensures ScanFrom(d, i, StateAt(d, Items(d), |done|)) == SearchFrom(d, Items(d), |done|)
    decreases |d| - i
  {
    var items := Items(d);
    if i == |d| || ValueLength(d[i]) > |d| - (i + 1) {
      WalkStop(d, items, done, i);
    } else {
      WalkAdvance(d, items, done, i);
      var it := items[|done|];
      if !SelectsAt(d, items, |done|) {
        ScanFromIsSearch(d, it.End(), done + [it]);
      }
    }
  }

  /** The driver's walk and the first-match search over all items agree. */
  lemma InputModeIsSearch(d: seq<bv8>)
    ensures InputMode(d) == SearchFrom(d, Items(d), 0)
  {
    ScanFromIsSearch(d, 0, []);
  }

  /**
   * The locator's answer is the first match: None exactly when no item selects
   * Input Mode, and otherwise the Report ID and width in force at the first item
   * that does.
   */
  lemma {:induction false} SearchFromIsFirstMatch(d: seq<bv8>, items: seq<Item>, k: nat)
    requires k <= |items|
    ensures SearchFrom(d, items, k).None? <==>
      forall j :: k <= j < |items| ==> !SelectsAt(d, items, j)
    ensures SearchFrom(d, items, k).Some? ==>
      exists j :: k <= j < |items| && SelectsAt(d, items, j) &&
        (forall i :: k <= i < j ==> !SelectsAt(d, items, i)) &&
        SearchFrom(d, items, k).value == FieldAt(d, items, j)
    decreases |items| - k
  {
    if k < |items| {
      if !SelectsAt(d, items, k) {
        SearchFromIsFirstMatch(d, items, k + 1);
        if SearchFrom(d, items, k).Some? {
          var j :| k + 1 <= j < |items| && SelectsAt(d, items, j) &&
            (forall i :: k + 1 <= i < j ==> !SelectsAt(d, items, i)) &&
            SearchFrom(d, items, k + 1).value == FieldAt(d, items, j);
          assert forall i :: k <= i < j ==> !SelectsAt(d, items, i);
        }
      } else {
        assert SearchFrom(d, items, k) == Some(FieldAt(d, items, k));
      }
    }
  }

  lemma InputModeIsFirstMatch(d: seq<bv8>)
    ensures InputMode(d).None? <==>
      forall j :: 0 <= j < |Items(d)| ==> !SelectsAt(d, Items(d), j)
    ensures InputMode(d).Some? ==>
      exists j :: 0 <= j < |Items(d)| && SelectsAt(d, Items(d), j) &&
        (forall i :: 0 <= i < j ==> !SelectsAt(d, Items(d), i)) &&
        InputMode(d).value == FieldAt(d, Items(d), j)
  {
    InputModeIsSearch(d);
    SearchFromIsFirstMatch(d, Items(d), 0);
  }

  /**
   * `inConfigTlc` holds after some items exactly when one of them opened the
   * Device Configuration collection at depth 1; End Collection never clears it.
   */
  lemma {:induction false} ConfigLatch(d: seq<bv8>, items: seq<Item>, k: nat)
    requires k <= |items|
    ensures StateAt(d, items, k).inConfigTlc <==>
      exists j :: 0 <= j < k && OpensConfigAt(d, items, j)
  {
    if k > 0 {
      ConfigLatch(d, items, k - 1);
      var prev := StateAt(d, items, k - 1);
      assert StateAt(d, items, k).inConfigTlc == (prev.inConfigTlc || OpensConfigAt(d, items, k - 1));
      if exists j :: 0 <= j < k && OpensConfigAt(d, items, j) {
        var j :| 0 <= j < k && OpensConfigAt(d, items, j);
        assert j < k - 1 ==> prev.inConfigTlc;
      }
    }
  }

  /**
   * Report ID and Report Size are globals: after some items each holds the value
   * of the last such item among them, or 0 when there is none.
   */
  lemma {:induction false} LatestReportGlobals(d: seq<bv8>, items: seq<Item>, k: nat)
    requires k <= |items|
    ensures (forall j :: 0 <= j < k ==> items[j].tag != REPORT_ID) ==> StateAt(d, items, k).reportId == 0
    ensures forall j ::
      (0 <= j < k && items[j].tag == REPORT_ID && forall m :: j < m < k ==> items[m].tag != REPORT_ID) ==>
      StateAt(d, items, k).reportId == ValueOf(d, items[j])
    ensures (forall j :: 0 <= j < k ==> items[j].tag != REPORT_SIZE) ==> StateAt(d, items, k).reportSize == 0
    ensures forall j ::
      (0 <= j < k && items[j].tag == REPORT_SIZE && forall m :: j < m < k ==> items[m].tag != REPORT_SIZE) ==>
      StateAt(d, items, k).reportSize == ValueOf(d, items[j])
  {
    if k > 0 {
      LatestReportGlobals(d, items, k - 1);
    }
  }

  /** Without a Usage Page Digitizers item there is no Input Mode field. */
  lemma NoDigitizersNoInputMode(d: seq<bv8>)
    requires forall k :: 0 <= k < |Items(d)| && Items(d)[k].tag == USAGE_PAGE ==>
      ValueOf(d, Items(d)[k]) != DIGITIZERS_PAGE
    ensures InputMode(d) == None
  {
    var items := Items(d);
    forall j | 0 <= j < |items|
      ensures !SelectsAt(d, items, j)
    {
      NoDigitizersPage(d, items, j);
    }
    InputModeIsFirstMatch(d);
  }

  /**
   * Once the walk from `i` finds the field, bytes appended after the descriptor
   * change nothing: the walk returns at the match and consults no later item.
   */
  lemma {:induction false} ScanFromIgnoresLaterBytes(d: seq<bv8>, t: seq<bv8>, i: nat, st: ScanState)
    requires i <= |d| && ScanFrom(d, i, st).Some?
    ensures ScanFrom(d + t, i, st) == ScanFrom(d, i, st)
    decreases |d| - i
  {
    var e := d + t;
    assert e[i] == d[i];
    var n := ValueLength(d[i]);
    var it := Item(i, d[i], n);
    assert n > 0 ==> e[i + 1] == d[i + 1];
    assert ValueOf(e, it) == ValueOf(d, it);
    if !SelectsInputMode(st, it.tag) {
      ScanFromIgnoresLaterBytes(d, t, it.End(), Step(st, it.tag, ValueOf(d, it)));
    }
  }

  /** What follows the Input Mode field in the descriptor does not affect the answer. */
  lemma InputModeIgnoresLaterBytes(d: seq<bv8>, t: seq<bv8>)
    requires InputMode(d).Some?
    ensures InputMode(d + t) == InputMode(d)
  {
    ScanFromIgnoresLaterBytes(d, t, 0, Start);
  }

  /**
   * Usage Page Digitizers, Usage Device Configuration, Collection Application,
   * Report ID 5, Report Size 2, Usage Input Mode, Feature: report 5, one byte.
   */
  lemma InputModeExample()
    ensures InputMode([0x05, 0x0D, 0x09, 0x0E, 0xA1, 0x01, 0x85, 0x05, 0x75, 0x02, 0x09, 0x52, 0xB1, 0x02])
      == Some(InputModeField(5, 1))
  {
    var d: seq<bv8> := [0x05, 0x0D, 0x09, 0x0E, 0xA1, 0x01, 0x85, 0x05, 0x75, 0x02, 0x09, 0x52, 0xB1, 0x02];
    var s2 := ScanState(0, 0x0D, 0, 0, 0, 0, false);
    var s4 := ScanState(0, 0x0D, 0x0E, 0, 0, 0, false);
    var s6 := ScanState(1, 0x0D, 0x0E, 0, 0, 0, true);
    var s8 := ScanState(1, 0x0D, 0x0E, 5, 0, 0, true);
    var s10 := ScanState(1, 0x0D, 0x0E, 5, 2, 0, true);
    var s12 := ScanState(1, 0x0D, 0x52, 5, 2, 0, true);
    assert ScanFrom(d, 12, s12) == Some(InputModeField(5, 1));
    ScanAdvance(d, 10, s10, d[10], 1, d[11], 12, s12);
    ScanAdvance(d, 8, s8, d[8], 1, d[9], 10, s10);
    ScanAdvance(d, 6, s6, d[6], 1, d[7], 8, s8);
    ScanAdvance(d, 4, s4, d[4], 1, d[5], 6, s6);
    ScanAdvance(d, 2, s2, d[2], 1, d[3], 4, s4);
    ScanAdvance(d, 0, Start, d[0], 1, d[1], 2, s2);
  }

  /** The same descriptor with Report Size 0: the locator reports a field of width 0. */
  lemma ZeroWidthInputModeExample()
    ensures InputMode([0x05, 0x0D, 0x09, 0x0E, 0xA1, 0x01, 0x85, 0x05, 0x75, 0x00, 0x09, 0x52, 0xB1, 0x02])
      == Some(InputModeField(5, 0))
  {
    var d: seq<bv8> := [0x05, 0x0D, 0x09, 0x0E, 0xA1, 0x01, 0x85, 0x05, 0x75, 0x00, 0x09, 0x52, 0xB1, 0x02];
    var s2 := ScanState(0, 0x0D, 0, 0, 0, 0, false);
    var s4 := ScanState(0, 0x0D, 0x0E, 0, 0, 0, false);
    var s6 := ScanState(1, 0x0D, 0x0E, 0, 0, 0, true);
    var s8 := ScanState(1, 0x0D, 0x0E, 5, 0, 0, true);
    var s10 := ScanState(1, 0x0D, 0x0E, 5, 0, 0, true);
    var s12 := ScanState(1, 0x0D, 0x52, 5, 0, 0, true);
    assert ScanFrom(d, 12, s12) == Some(InputModeField(5, 0));
    ScanAdvance(d, 10, s10, d[10], 1, d[11], 12, s12);
    ScanAdvance(d, 8, s8, d[8], 1, d[9], 10, s10);
    ScanAdvance(d, 6, s6, d[6], 1, d[7], 8, s8);
    ScanAdvance(d, 4, s4, d[4], 1, d[5], 6, s6);
    ScanAdvance(d, 2, s2, d[2], 1, d[3], 4, s4);
    ScanAdvance(d, 0, Start, d[0], 1, d[1], 2, s2);
  }
}
