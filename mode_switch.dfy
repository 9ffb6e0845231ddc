/**
 * The feature report that takes a precision touchpad out of mouse emulation:
 * the Report ID of the Input Mode field, then the field itself, `width` bytes
 * holding the value 3 (precision touchpad mode) in the little-endian byte order
 * of HID reports. The driver assumes Input Mode is the report's only field.
 */
module ModeSwitch {
  import opened Wrappers
  import opened HidItems
  import opened InputModeLocator

  /** Input Mode value that selects precision touchpad reporting. */
  const PRECISION_TOUCHPAD_MODE: bv8 := 3

  /** `n` zero bytes. */
  function Zeros(n: nat): (z: seq<bv8>)
    ensures |z| == n && forall k :: 0 <= k < n ==> z[k] == 0
  {
    if n == 0 then [] else [0] + Zeros(n - 1)
  }

  /** The unsigned little-endian number held in `bytes`. */
  function LittleEndian(bytes: seq<bv8>): nat
  {
    if bytes == [] then 0 else bytes[0] as nat + 256 * LittleEndian(bytes[1..])
  }

  /**
   * The intended feature report for a field of `width` bytes: the Report ID,
   * then the field with value 3. With width 0 there is no room for the value.
   */
  function ModeReport(reportId: bv8, width: nat): seq<bv8>
  {
    if width == 0 then [reportId] else [reportId, PRECISION_TOUCHPAD_MODE] + Zeros(width - 1)
  }

  lemma {:induction false} ZerosAreZero(n: nat)
    ensures LittleEndian(Zeros(n)) == 0
  {
    if n > 0 {
      assert Zeros(n)[1..] == Zeros(n - 1);
      ZerosAreZero(n - 1);
    }
  }

  /**
   * Read back as a HID report, the mode report carries the Report ID first and
   * the field, `width` bytes long, holding precision touchpad mode.
   */
  lemma ModeReportCarriesMode(reportId: bv8, width: nat)
    requires width >= 1
    ensures |ModeReport(reportId, width)| == width + 1
    ensures ModeReport(reportId, width)[0] == reportId
    ensures LittleEndian(ModeReport(reportId, width)[1..]) == 3
  {
    var r := ModeReport(reportId, width);
    assert r[1..][1..] == Zeros(width - 1);
    ZerosAreZero(width - 1);
  }

  /**
   * Fills a freshly allocated report buffer of `width + 1` bytes: clears it, then
   * writes the Report ID and, when the buffer has room, the mode value.
   */
  method FillModeReport(report: array<bv8>, reportId: bv8)
    requires report.Length >= 1
    modifies report
    ensures report[..] == ModeReport(reportId, report.Length - 1)
  {
    var i := 0;
    while i < report.Length
      invariant 0 <= i <= report.Length
      invariant forall k :: 0 <= k < i ==> report[k] == 0
    {
      report[i] := 0;
      i := i + 1;
    }
    report[0] := reportId;
    if report.Length > 1 {
      report[1] := PRECISION_TOUCHPAD_MODE;
    }
    assert report[..] == ModeReport(reportId, report.Length - 1);
  }

  /**
   * The buffer the driver's fill leaves behind, from the buffer's initial
   * contents `init` of `width + 1` bytes: the clearing loop runs over the first
   * `width` bytes, over the Report ID and the mode value already written.
   */
  function ModeReportAsWritten(init: seq<bv8>, reportId: bv8, width: nat): (r: seq<bv8>)
    requires |init| == width + 1
    ensures |r| == width + 1
  {
    seq(width + 1, k requires 0 <= k <= width =>
      if k < width then 0
      else if width == 0 then reportId
      else if width == 1 then PRECISION_TOUCHPAD_MODE
      else init[k])
  }

  /**
   * The driver's fill, statement by statement, over a buffer of `width + 1`
   * bytes. With width 0 the mode value would be written one byte past the end
   * of the buffer; the model skips that write and reports it.
   */
  method FillModeReportAsWritten(report: array<bv8>, reportId: bv8, width: nat) returns (inBounds: bool)
    requires report.Length == width + 1
    modifies report
    ensures inBounds <==> width >= 1
    ensures report[..] == ModeReportAsWritten(old(report[..]), reportId, width)
  {
    report[0] := reportId;
    inBounds := 1 < report.Length;
    if inBounds {
      report[1] := PRECISION_TOUCHPAD_MODE;
    }
    var i := 0;
    while i < width
      invariant 0 <= i <= width
      invariant forall k :: 0 <= k < i ==> report[k] == 0
      invariant forall k :: i <= k <= width ==>
        report[k] == (if k == 0 then reportId else if k == 1 then PRECISION_TOUCHPAD_MODE else old(report[k]))
    {
      report[i] := 0;
      i := i + 1;
    }
  }

  /**
   * The clearing loop erases the Report ID: for every field width of at least
   * one byte, the report sent starts with 0 whatever the Input Mode report's ID.
   */
  lemma AsWrittenLosesReportId(init: seq<bv8>, reportId: bv8, width: nat)
    requires |init| == width + 1 && width >= 1 && reportId != 0
    ensures ModeReportAsWritten(init, reportId, width)[0] == 0
    ensures ModeReportAsWritten(init, reportId, width) != ModeReport(reportId, width)
  {
    assert ModeReport(reportId, width)[0] == reportId;
  }

  /**
   * With a field of two bytes or more, the clearing loop also erases the mode
   * value, whatever the buffer held before: the field's first byte is 0, so the
   * field never reads as precision touchpad mode.
   */
  lemma AsWrittenLosesMode(init: seq<bv8>, reportId: bv8, width: nat)
    requires |init| == width + 1 && width >= 2
    ensures ModeReportAsWritten(init, reportId, width)[1] == 0
    ensures LittleEndian(ModeReportAsWritten(init, reportId, width)[1..]) % 256 == 0
    ensures LittleEndian(ModeReportAsWritten(init, reportId, width)[1..]) != PRECISION_TOUCHPAD_MODE as nat
  {
    var field := ModeReportAsWritten(init, reportId, width)[1..];
    assert field[0] == 0;
    var rest := LittleEndian(field[1..]);
    assert LittleEndian(field) == 256 * rest;
  }

  /** Report ID 5 with a one-byte field: the driver's fill sends 00 03, the intended report is 05 03. */
  lemma AsWrittenExample()
    ensures ModeReportAsWritten([0, 0], 5, 1) == [0, 3]
    ensures ModeReport(5, 1) == [5, 3]
  {
    assert Zeros(0) == [];
  }

  /**
   * The first `n` bytes of a fresh allocation. The driver's buffer comes from
   * paged pool and is not cleared, so what it holds is a parameter, `pool`.
   */
  function Allocated(pool: nat -> bv8, n: nat): (b: seq<bv8>)
    ensures |b| == n && forall k :: 0 <= k < n ==> b[k] == pool(k)
  {
    seq(n, k requires 0 <= k < n => pool(k))
  }

  /**
   * A feature report as the driver hands it over: the buffer's bytes after the
   * fill, and whether the fill wrote the mode value past the buffer's end.
   */
  datatype SentReport = SentReport(bytes: seq<bv8>, overrun: bool)

  /**
   * The report the driver's mode switch sends for descriptor `d`, if it finds the
   * Input Mode field: a buffer of width + 1 bytes, fresh from `pool`, filled as
   * the driver fills it.
   */
  function ModeSwitchReport(d: seq<bv8>, pool: nat -> bv8): Option<SentReport>
  {
    match InputMode(d)
    case None => None
    case Some(field) =>
      Some(SentReport(ModeReportAsWritten(Allocated(pool, field.width + 1), field.reportId, field.width), field.width == 0))
  }

  /**
   * Switching the device to precision touchpad mode: locate the Input Mode field
   * in the `len` descriptor bytes at `a[start..]`, allocate a report of its width
   * plus one byte, fill it as the driver does, and hand it over (the result
   * stands for the feature request sent to the device); nothing is sent without
   * the field.
   */
  method SetToPrecisionTouchpadMode(a: array<bv8>, start: nat, len: nat, pool: nat -> bv8) returns (sent: Option<SentReport>)
    requires start + len <= a.Length
    ensures sent == ModeSwitchReport(a[start..start + len], pool)
  {
    var found := GetInputMode(a, start, len);
    if found.None? {
      return None;
    }
    var report := new bv8[found.value.width + 1](k => pool(k));
    assert forall k :: 0 <= k < report.Length ==> report[k] == pool(k);
    assert report[..] == Allocated(pool, found.value.width + 1);
    var inBounds := FillModeReportAsWritten(report, found.value.reportId, found.value.width);
    return Some(SentReport(report[..], !inBounds));
  }

  /**
   * What the driver's mode switch sends, for every descriptor with an Input Mode
   * field and whatever the allocation held: a zero-width field overruns the
   * buffer; otherwise the Report ID is lost, and from two bytes on the mode
   * value is lost as well.
   */
  lemma ModeSwitchAsSent(d: seq<bv8>, pool: nat -> bv8)
    requires InputMode(d).Some?
    ensures ModeSwitchReport(d, pool).Some?
    ensures |ModeSwitchReport(d, pool).value.bytes| == InputMode(d).value.width + 1
    ensures ModeSwitchReport(d, pool).value.overrun <==> InputMode(d).value.width == 0
    ensures InputMode(d).value.width == 0 ==> ModeSwitchReport(d, pool).value.bytes == [InputMode(d).value.reportId]
    ensures InputMode(d).value.width >= 1 ==> ModeSwitchReport(d, pool).value.bytes[0] == 0
    ensures InputMode(d).value.width == 1 ==> ModeSwitchReport(d, pool).value.bytes[1] == PRECISION_TOUCHPAD_MODE
    ensures InputMode(d).value.width >= 2 ==>
      LittleEndian(ModeSwitchReport(d, pool).value.bytes[1..]) != PRECISION_TOUCHPAD_MODE as nat
  {
    var field := InputMode(d).value;
    if field.width >= 2 {
      AsWrittenLosesMode(Allocated(pool, field.width + 1), field.reportId, field.width);
    }
  }

  /**
   * The driver's mode switch sends the intended report, in bounds, exactly when
   * the Input Mode field is one byte wide in report 0.
   */
  lemma ModeSwitchMatchesIntended(d: seq<bv8>, pool: nat -> bv8)
    requires InputMode(d).Some?
    ensures ModeSwitchReport(d, pool) == Some(SentReport(ModeReport(InputMode(d).value.reportId, InputMode(d).value.width), false))
      <==> InputMode(d).value.width == 1 && InputMode(d).value.reportId == 0
  {
    var field := InputMode(d).value;
    var sent := ModeSwitchReport(d, pool).value;
    ModeSwitchAsSent(d, pool);
    if field.width >= 1 {
      ModeReportCarriesMode(field.reportId, field.width);
    }
    if field.width == 1 {
      assert ModeReport(field.reportId, 1) == [field.reportId, PRECISION_TOUCHPAD_MODE];
      assert sent.bytes == [0, PRECISION_TOUCHPAD_MODE];
    }
  }

  /** Report ID 5 and a 2-bit field: whatever the allocation held, the driver sends 00 03. */
  lemma ModeSwitchExample(pool: nat -> bv8)
    ensures ModeSwitchReport([0x05, 0x0D, 0x09, 0x0E, 0xA1, 0x01, 0x85, 0x05, 0x75, 0x02, 0x09, 0x52, 0xB1, 0x02], pool)
      == Some(SentReport([0, 3], false))
  {
    var d: seq<bv8> := [0x05, 0x0D, 0x09, 0x0E, 0xA1, 0x01, 0x85, 0x05, 0x75, 0x02, 0x09, 0x52, 0xB1, 0x02];
    InputModeExample();
    assert InputMode(d) == Some(InputModeField(5, 1));
    assert ModeSwitchReport(d, pool).value.bytes == [0, 3];
  }

  /** The report the mode switch is meant to send for `d`: the corrected fill of the located field. */
  function IntendedModeSwitchReport(d: seq<bv8>): Option<seq<bv8>>
  {
    match InputMode(d)
    case None => None
    case Some(field) => Some(ModeReport(field.reportId, field.width))
  }

  /** The mode switch with the corrected fill in place of the driver's. */
  method IntendedSetToPrecisionTouchpadMode(a: array<bv8>, start: nat, len: nat) returns (sent: Option<seq<bv8>>)
    requires start + len <= a.Length
    ensures sent == IntendedModeSwitchReport(a[start..start + len])
  {
    var found := GetInputMode(a, start, len);
    if found.None? {
      return None;
    }
    var report := new bv8[found.value.width + 1];
    FillModeReport(report, found.value.reportId);
    return Some(report[..]);
  }

  /** The intended mode switch, when sent, carries the Report ID of the first Input Mode field and the value 3. */
  lemma IntendedModeSwitchCarriesInputMode(d: seq<bv8>)
    requires IntendedModeSwitchReport(d).Some? && InputMode(d).value.width >= 1
    ensures IntendedModeSwitchReport(d).value[0] == InputMode(d).value.reportId
    ensures |IntendedModeSwitchReport(d).value| == InputMode(d).value.width + 1
    ensures LittleEndian(IntendedModeSwitchReport(d).value[1..]) == PRECISION_TOUCHPAD_MODE as nat
  {
    ModeReportCarriesMode(InputMode(d).value.reportId, InputMode(d).value.width);
  }

  /** Report ID 5 and a 2-bit field: the intended mode switch sends 05 03. */
  lemma IntendedModeSwitchExample()
    ensures IntendedModeSwitchReport([0x05, 0x0D, 0x09, 0x0E, 0xA1, 0x01, 0x85, 0x05, 0x75, 0x02, 0x09, 0x52, 0xB1, 0x02])
      == Some([5, 3])
  {
    var d: seq<bv8> := [0x05, 0x0D, 0x09, 0x0E, 0xA1, 0x01, 0x85, 0x05, 0x75, 0x02, 0x09, 0x52, 0xB1, 0x02];
    InputModeExample();
    assert InputMode(d) == Some(InputModeField(5, 1));
    assert Zeros(0) == [];
    assert ModeReport(5, 1) == [5, 3];
  }
}
