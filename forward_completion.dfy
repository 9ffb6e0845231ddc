/**
 * The completion routine of a request forwarded to the device below: when the
 * device has answered a request for the HID report descriptor successfully, the
 * descriptor is rewritten in place in the output buffer, and if that rewrote a
 * touchpad usage the device is switched to precision touchpad mode. Whatever
 * happens, the request completes with the device's own status and length.
 */
module ForwardCompletion {
  import opened Wrappers
  import opened HidItems
  import opened InputModeLocator
  import opened UsageRewriter
  import opened ModeSwitch

  /** A Windows NTSTATUS: a signed 32-bit value, negative for errors and warnings of severity error. */
  newtype NtStatus = x: int | -0x8000_0000 <= x < 0x8000_0000

  /** NT_SUCCESS: every non-negative status is a success. */
  predicate NtSuccess(status: NtStatus)
  {
    status >= 0
  }

  /** CTL_CODE(FILE_DEVICE_KEYBOARD, 1, METHOD_NEITHER, FILE_ANY_ACCESS). */
  const IOCTL_HID_GET_REPORT_DESCRIPTOR: bv32 := 0xB0007

  /** How the forwarded request is completed. */
  datatype Completion = Completion(status: NtStatus, information: nat)

  /** The routine patches only a successful request for the report descriptor. */
  predicate PatchesDescriptor(status: NtStatus, code: bv32)
  {
    NtSuccess(status) && code == IOCTL_HID_GET_REPORT_DESCRIPTOR
  }

  /**
   * Scan states that differ at most in a last usage that is neither Input Mode
   * nor Device Configuration lead the locator the same way.
   */
  predicate SameForLocator(st: ScanState, st': ScanState)
  {
    st.(lastUsage := 0) == st'.(lastUsage := 0) &&
    (st.lastUsage == INPUT_MODE <==> st'.lastUsage == INPUT_MODE) &&
    (st.lastUsage == DEVICE_CONFIGURATION <==> st'.lastUsage == DEVICE_CONFIGURATION)
  }

  /**
   * The locator's walk over `e`, which is `d` with the rewriter's targets from
   * `i` overwritten, gives the same answer as over `d`: the rewrite turns a usage
   * value 0x05 into 0x04, and the locator reacts to neither.
   */
  lemma {:induction false} ScanRewritten(d: seq<bv8>, e: seq<bv8>, i: nat, st: ScanState, st': ScanState)
    requires i <= |d| == |e| && RewrittenFrom(d, e, i, TargetsFrom(d, i, st.depth, st.usagePage))
    requires SameForLocator(st, st')
    ensures ScanFrom(e, i, st') == ScanFrom(d, i, st)
    decreases |d| - i
  {
    if i < |d| {
      RewrittenStep(d, e, i, st.depth, st.usagePage);
      var n := ValueLength(d[i]);
      if n <= |d| - (i + 1) {
        var it := Item(i, d[i], n);
        var v := ValueOf(d, it);
        var w := ValueOf(e, it);
        assert SelectsInputMode(st', it.tag) == SelectsInputMode(st, it.tag);
        if !SelectsInputMode(st, it.tag) {
          var next, next' := Step(st, it.tag, v), Step(st', it.tag, w);
          assert SameForLocator(next, next');
          ScanRewritten(d, e, it.End(), next, next');
        }
      }
    }
  }

  /** Patching does not move the Input Mode field: the locator answers the same before and after. */
  lemma PatchKeepsInputMode(d: seq<bv8>, pool: nat -> bv8)
    ensures InputMode(Patched(d)) == InputMode(d)
    ensures ModeSwitchReport(Patched(d), pool) == ModeSwitchReport(d, pool)
  {
    PatchChangesOnlyTargets(d);
    assert RewrittenFrom(d, Patched(d), 0, Targets(d));
    ScanRewritten(d, Patched(d), 0, Start, Start);
  }

  /**
   * The completion routine. The output buffer holds the device's answer; the
   * descriptor is the `information` bytes at `offset`. The result stands for the
   * request's completion and for the mode switch report sent, if any; `pool`
   * is what the mode switch's fresh allocation holds.
   */
  method ForwardIoctlCompletion(output: array<bv8>, offset: nat, status: NtStatus, code: bv32, information: nat,
                                pool: nat -> bv8)
    returns (completion: Completion, modeSwitch: Option<SentReport>)
    requires PatchesDescriptor(status, code) ==> offset + information <= output.Length
    modifies output
    ensures completion == Completion(status, information)
    ensures !PatchesDescriptor(status, code) ==> output[..] == old(output[..]) && modeSwitch == None
    ensures PatchesDescriptor(status, code) ==>
      output[..offset] == old(output[..offset]) &&
      output[offset + information..] == old(output[offset + information..]) &&
      output[offset..offset + information] == Patched(old(output[offset..offset + information])) &&
      modeSwitch == if Targets(old(output[offset..offset + information])) != {}
        then ModeSwitchReport(old(output[offset..offset + information]), pool) else None
  {
    modeSwitch := None;
    if !NtSuccess(status) || code != IOCTL_HID_GET_REPORT_DESCRIPTOR {
      return Completion(status, information), modeSwitch;
    }
    ghost var d := output[offset..offset + information];
    var patched := PatchDescriptor(output, offset, information);
    if patched {
      PatchKeepsInputMode(d, pool);
      modeSwitch := SetToPrecisionTouchpadMode(output, offset, information, pool);
    }
    return Completion(status, information), modeSwitch;
  }

  /** The descriptor of `OverrunTriggersModeSwitch`: Input Mode in report 5, then a truncated Usage header. */
  const OVERRUN_DESCRIPTOR: seq<bv8> :=
    [0x05, 0x0D, 0x09, 0x0E, 0xA1, 0x01, 0x85, 0x05, 0x75, 0x02, 0x09, 0x52, 0xB1, 0x02, 0xC0, 0x05, 0x0D, 0x09]

  /** The driver's walk over the descriptor followed in memory by 05 rewrites the byte after it. */
  lemma OverrunAsWrittenTargets()
    ensures TargetsAsWritten(OVERRUN_DESCRIPTOR + [0x05], 18, 0, 0, 0) == {18}
  {
    var m := OVERRUN_DESCRIPTOR + [0x05];
    assert TargetsAsWritten(m, 18, 19, 0, 0x0D) == {};
    assert TargetsAsWritten(m, 18, 17, 0, 0x0D) == {18};
    assert TargetsAsWritten(m, 18, 15, 0, 0x0D) == {18};
    assert TargetsAsWritten(m, 18, 14, 1, 0x0D) == {18};
    assert TargetsAsWritten(m, 18, 12, 1, 0x0D) == {18};
    assert TargetsAsWritten(m, 18, 10, 1, 0x0D) == {18};
    assert TargetsAsWritten(m, 18, 8, 1, 0x0D) == {18};
    assert TargetsAsWritten(m, 18, 6, 1, 0x0D) == {18};
    assert TargetsAsWritten(m, 18, 4, 0, 0x0D) == {18};
    assert TargetsAsWritten(m, 18, 2, 0, 0x0D) == {18};
  }

  /** The model's walk over the same descriptor rewrites nothing. */
  lemma OverrunModelTargets()
    ensures Targets(OVERRUN_DESCRIPTOR) == {}
  {
    var d := OVERRUN_DESCRIPTOR;
    assert TargetsFrom(d, 17, 0, 0x0D) == {};
    assert TargetsFrom(d, 15, 0, 0x0D) == {};
    assert TargetsFrom(d, 14, 1, 0x0D) == {};
    assert TargetsFrom(d, 12, 1, 0x0D) == {};
    assert TargetsFrom(d, 10, 1, 0x0D) == {};
    assert TargetsFrom(d, 8, 1, 0x0D) == {};
    assert TargetsFrom(d, 6, 1, 0x0D) == {};
    assert TargetsFrom(d, 4, 0, 0x0D) == {};
    assert TargetsFrom(d, 2, 0, 0x0D) == {};
    assert TargetsFrom(d, 0, 0, 0) == {};
  }

  /**
   * A descriptor whose Input Mode field comes before a truncated trailing Usage
   * header. When the byte after it in memory is 05, the driver rewrites that
   * byte, outside the descriptor, and then finds the field and sends a mode
   * switch. The model rewrites nothing, so its completion sends nothing.
   */
  lemma OverrunTriggersModeSwitch()
    ensures TargetsAsWritten(OVERRUN_DESCRIPTOR + [0x05], 18, 0, 0, 0) == {18}
    ensures Targets(OVERRUN_DESCRIPTOR) == {}
    ensures InputMode(OVERRUN_DESCRIPTOR) == Some(InputModeField(5, 1))
  {
    OverrunAsWrittenTargets();
    OverrunModelTargets();
    var e: seq<bv8> := [0x05, 0x0D, 0x09, 0x0E, 0xA1, 0x01, 0x85, 0x05, 0x75, 0x02, 0x09, 0x52, 0xB1, 0x02];
    var t: seq<bv8> := [0xC0, 0x05, 0x0D, 0x09];
    assert OVERRUN_DESCRIPTOR == e + t;
    InputModeExample();
    InputModeIgnoresLaterBytes(e, t);
  }

  /**
   * The short descriptor 05 0D 09 followed in memory by 05: after the driver's
   * rewrite past its end, the locator reads 04 there, meets no Feature item and
   * finds no Input Mode field, so no mode switch is sent.
   */
  lemma OverrunWithoutInputMode()
    ensures TargetsAsWritten([0x05, 0x0D, 0x09, 0x05], 3, 0, 0, 0) == {3}
    ensures InputMode([0x05, 0x0D, 0x09, 0x04]) == None
  {
    RewritePastDescriptor();
    var m: seq<bv8> := [0x05, 0x0D, 0x09, 0x04];
    ScanAdvance(m, 0, Start, 0x05, 1, 0x0D, 2, Step(Start, 0x05, 0x0D));
    ScanAdvance(m, 2, Step(Start, 0x05, 0x0D), 0x09, 1, 0x04, 4, Step(Step(Start, 0x05, 0x0D), 0x09, 0x04));
  }
}
