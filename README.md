# Pad2Screen descriptor rewriting, modelled in Dafny

Pad2Screen is a Windows filter driver that makes a precision touchpad appear to
Windows as a touch screen. It intercepts the device's answer to the request for
its HID report descriptor and does two things to it.

- It rewrites the top-level usage Touch Pad (0x05) on the Digitizers page (0x0D)
  into Touch Screen (0x04), in place.
- When that rewrite happened, it locates the "Input Mode" feature field (usage 0x52)
  once the Device Configuration collection (usage 0x0E) has been entered. It then sends the device
  a feature report meant to set the field to 3, which is precision touchpad mode.
  As written, the fill of that report clears the Report ID, and for fields of two
  bytes or more the mode value too (see "## Findings"); the model sends what the
  code builds.

This project models that core:

- the item walk shared by both scanners: short items of section 6.2.2.2 of the
  Device Class Definition for HID 1.11, where the size code `header & 3` uses 3 to mean 4;
- the in-place rewriter;
- the read-only Input Mode locator;
- the filling of the mode-switch report;
- the completion routine that ties them together.

It proves the properties the driver relies on. Each scanner is an imperative
method over an `array<bv8>` with loop invariants. Each is proved against a
forward-recursive specification function that walks the descriptor the same way.
That function is in turn proved equal to a declarative characterization over the
list of items.

Modules, one file each:

- `Wrappers`: `Option`.
- `HidItems`: header constants, the item walk, and the scan state with its one-item step.
- `InputModeLocator`: the locator.
- `UsageRewriter`: the rewriter.
- `ModeSwitch`: the mode-switch report.
- `ForwardCompletion`: the completion routine.

**Bounds.** The driver never checks that an item's value bytes fit in the buffer;
it reads past the end of a truncated trailing item. The model instead stops the
walk at the first item whose value would not fit, and does not interpret that
item. This is an explicit truncation stop made by the model; the source does not
perform it.

**Behaviour of the code that the model keeps:**

- On a truncated trailing item the rewriter keeps the rewrites already made and
  still reports a change; there is no rollback (`Pad2Screen/Driver.c:113-136`).
- The mode-switch buffer is width + 1 bytes, where width is `(ReportSize + 7) / 8`
  (`Pad2Screen/Driver.c:81`, `Pad2Screen/Driver.c:248`).
- The mode-switch buffer comes from paged pool and is not cleared before the
  fill, so the bytes the fill does not write are a parameter of the model.
- `inConfigTlc` is only ever set. End Collection never clears it
  (`Pad2Screen/Driver.c:63-69`).

## Model

| member | source | states |
|---|---|---|
| HidItems.ItemsFrom | Pad2Screen/Driver.c:47-54 | Every item the walk visits lies inside the buffer, and its header's size code gives its value length. The first item starts where the walk starts, and no item starts before it. |
| HidItems.ValueLengthBySizeCode | Pad2Screen/Driver.c:49-52 | The value length is 0, 1, 2 or 4 according to the header modulo 4; code 3 means 4 bytes. |
| HidItems.ItemsOrdered | Pad2Screen/Driver.c:113-120 | The walk strictly advances: each item ends at or before the start of every later item, so items never overlap. |
| HidItems.NoDigitizersPage | Pad2Screen/Driver.c:63-71 | Without a Usage Page Digitizers item, the scan never reaches the Digitizers page and never enters the configuration collection. |
| InputModeLocator.FieldWidth | Pad2Screen/Driver.c:81 | The width `(reportSize + 7) / 8` is the least number of bytes that holds `reportSize` bits. |
| InputModeLocator.GetInputMode | Pad2Screen/Driver.c:32-88 | The locator, read-only over the descriptor bytes at an offset, returns exactly what the locator's walk over those bytes returns. |
| InputModeLocator.ScanFromIsSearch | Pad2Screen/Driver.c:47-85 | The locator's walk from any point agrees with the first-match search over the remaining items. |
| InputModeLocator.InputModeIsSearch | Pad2Screen/Driver.c:47-87 | The locator's answer is the first-match search over all items of the descriptor. |
| InputModeLocator.SearchFromIsFirstMatch | Pad2Screen/Driver.c:80-87 | The search answers nothing exactly when no remaining item selects Input Mode. Otherwise it answers at the first such item, with the Report ID and width in force there. |
| InputModeLocator.InputModeIsFirstMatch | Pad2Screen/Driver.c:80-87 | The locator returns false exactly when no item is a Feature after usage Input Mode in the configuration collection. Otherwise it returns the latest Report ID and `(ReportSize + 7) / 8` at the first such item. |
| InputModeLocator.LatestReportGlobals | Pad2Screen/Driver.c:41-77 | After some items, Report ID and Report Size each hold the value of the last such item among them, or 0 when there is none. This is the Report ID and Report Size the locator answers with. |
| InputModeLocator.ConfigLatch | Pad2Screen/Driver.c:63-69 | `inConfigTlc` holds after a prefix exactly when some earlier Collection brought the depth to 1 while the usage page was Digitizers and the last usage was Device Configuration. It is never cleared. |
| InputModeLocator.NoDigitizersNoInputMode | Pad2Screen/Driver.c:63-87 | A descriptor without Usage Page Digitizers has no Input Mode field. |
| InputModeLocator.ScanFromIgnoresLaterBytes | Pad2Screen/Driver.c:80-84 | Once the walk finds the field, bytes after the descriptor cannot change the answer. |
| InputModeLocator.InputModeIgnoresLaterBytes | Pad2Screen/Driver.c:80-84 | The locator returns at the first match: appending bytes to a descriptor in which it finds the field leaves its answer unchanged. |
| InputModeLocator.InputModeExample | Pad2Screen/Driver.c:63-83 | `05 0D 09 0E A1 01 85 05 75 02 09 52 B1 02` gives Report ID 5 and width 1. |
| InputModeLocator.ZeroWidthInputModeExample | Pad2Screen/Driver.c:76-83 | The same descriptor with Report Size 0 gives width 0. |
| UsageRewriter.TargetsAreTouchPadUsages | Pad2Screen/Driver.c:128-130 | Every byte the rewriter overwrites is the value Touch Pad of a Usage item, after the position the walk started from. |
| UsageRewriter.PatchDescriptor | Pad2Screen/Driver.c:90-137 | The in-place rewriter leaves the descriptor equal to its patched form and changes no byte outside it. It returns true exactly when something was rewritten. |
| UsageRewriter.TargetsFromIsEligible | Pad2Screen/Driver.c:113-133 | The rewriter's walk from any point overwrites exactly the value bytes of the remaining eligible items. |
| UsageRewriter.EligibleFromMembers | Pad2Screen/Driver.c:128-130 | A position is in the eligible set exactly when it is the value byte of some eligible item. |
| UsageRewriter.TargetsAreEligibleUsages | Pad2Screen/Driver.c:122-133 | A byte is rewritten exactly when it is the value of a Usage Touch Pad item met at depth 0 while the usage page is Digitizers. |
| UsageRewriter.PatchChangesOnlyTargets | Pad2Screen/Driver.c:128-133 | The rewriter keeps the length. Every changed byte was Touch Pad after a Usage header and becomes Touch Screen; every other byte is unchanged. |
| UsageRewriter.PatchReportsChange | Pad2Screen/Driver.c:129-136 | The rewriter reports a change exactly when the patched descriptor differs from the original. |
| UsageRewriter.RewrittenStep | Pad2Screen/Driver.c:113-133 | On a rewritten descriptor, every header is unchanged and the value read is Touch Screen exactly where the original was rewritten. |
| UsageRewriter.RepatchFrom | Pad2Screen/Driver.c:113-133 | Walking a rewritten descriptor meets the same items and finds nothing left to rewrite. |
| UsageRewriter.PatchIdempotent | Pad2Screen/Driver.c:90-137 | Patching is idempotent: a second pass finds nothing to rewrite and changes nothing. The item structure (headers, positions, lengths) is preserved. |
| UsageRewriter.UsageValueOutside | Pad2Screen/Driver.c:119-120 | The value byte of a Usage item lies outside every other item. |
| UsageRewriter.NestedItemsUntouched | Pad2Screen/Driver.c:128 | No byte of an item met inside a collection (depth other than 0) is ever rewritten. |
| UsageRewriter.NoDigitizersNoPatch | Pad2Screen/Driver.c:126-136 | Without a Usage Page Digitizers item, the rewriter changes nothing and reports so. |
| UsageRewriter.PatchExample | Pad2Screen/Driver.c:122-133 | `05 0D 09 05 A1 01 C0` becomes `05 0D 09 04 A1 01 C0`. |
| UsageRewriter.AsWrittenWithinDescriptor | Pad2Screen/Driver.c:113-133 | When the descriptor is all of the memory, the driver's unchecked walk rewrites exactly what the model's walk rewrites. |
| UsageRewriter.RewritePastDescriptor | Pad2Screen/Driver.c:113-133 | For descriptor `05 0D 09` followed in memory by `05`, the driver's walk rewrites the byte after the descriptor, and the model's walk rewrites nothing. |
| ModeSwitch.ZerosAreZero | Pad2Screen/Driver.c:261-263 | Zero bytes read as the number 0. |
| ModeSwitch.ModeReportCarriesMode | Pad2Screen/Driver.c:255-260 | The intended report has width + 1 bytes: the Report ID, then a field holding 3 in little-endian order. |
| ModeSwitch.FillModeReport | Pad2Screen/Driver.c:248-263 | The corrected fill leaves the buffer holding the intended report for its length. |
| ModeSwitch.FillModeReportAsWritten | Pad2Screen/Driver.c:258-263 | The fill as written, on any initial buffer, leaves zeros over the first `width` bytes. The last byte is the Report ID at width 0, the mode value 3 at width 1, and left over from before at width 2 or more. The second write is in bounds exactly when the width is at least 1. |
| ModeSwitch.AsWrittenLosesReportId | Pad2Screen/Driver.c:259-263 | For every width of at least 1, the fill as written sends 0 in place of a non-zero Report ID. |
| ModeSwitch.AsWrittenLosesMode | Pad2Screen/Driver.c:260-263 | For widths of 2 or more and any initial buffer, the fill as written clears the field's first byte, so the field never holds precision touchpad mode. |
| ModeSwitch.AsWrittenExample | Pad2Screen/Driver.c:259-263 | Report ID 5 with a 1-byte field: the driver sends `00 03`, where `05 03` is intended. |
| ModeSwitch.SetToPrecisionTouchpadMode | Pad2Screen/Driver.c:213-263 | The mode switch sends nothing without an Input Mode field. Otherwise it allocates width + 1 uncleared bytes, fills them as the driver does and sends them, flagging the write past the end at width 0. |
| ModeSwitch.ModeSwitchAsSent | Pad2Screen/Driver.c:236-263 | Whatever the pool held, the driver's report has width + 1 bytes; at width 0 it is the Report ID alone with a write past the end; from width 1 it starts with 0; at width 1 the field is 3; from width 2 the field never reads as 3. |
| ModeSwitch.ModeSwitchMatchesIntended | Pad2Screen/Driver.c:236-263 | The driver sends the intended report, within bounds, exactly when the Input Mode field is one byte wide in report 0. |
| ModeSwitch.ModeSwitchExample | Pad2Screen/Driver.c:236-263 | For the example descriptor (Report ID 5, width 1) the driver sends `00 03`, whatever the pool held. |
| ModeSwitch.IntendedSetToPrecisionTouchpadMode | Pad2Screen/Driver.c:236-263 | With the corrected fill, the mode switch sends the intended report for the located Report ID and width. |
| ModeSwitch.IntendedModeSwitchCarriesInputMode | Pad2Screen/Driver.c:236-263 | The corrected report starts with the Report ID of the first Input Mode field and holds the value 3 in a field of that width. |
| ModeSwitch.IntendedModeSwitchExample | Pad2Screen/Driver.c:236-263 | For the example descriptor, the corrected mode switch sends `05 03`. |
| ForwardCompletion.ScanRewritten | Pad2Screen/Driver.c:335-340 | The locator gives the same answer on a descriptor whose rewriter targets are overwritten as on the original. |
| ForwardCompletion.PatchKeepsInputMode | Pad2Screen/Driver.c:335-340 | Patching does not move the Input Mode field, so the mode switch sent after the patch is the one the original descriptor calls for, for any pool contents. |
| ForwardCompletion.OverrunTriggersModeSwitch | Pad2Screen/Driver.c:113-133 | For a descriptor with Input Mode in report 5 followed by a truncated Usage header, and 05 after it in memory, the driver's walk rewrites the byte past the descriptor and the locator finds the field, while the model's walk rewrites nothing. |
| ForwardCompletion.OverrunWithoutInputMode | Pad2Screen/Driver.c:234-238 | For `05 0D 09` followed by `05`, the driver rewrites the byte past the descriptor, and the locator, reading `04` there, finds no Input Mode field, so no report is sent. |
| ForwardCompletion.ForwardIoctlCompletion | Pad2Screen/Driver.c:296-349 | A failed request, or any request other than the report descriptor request, leaves the buffer alone and sends nothing. Otherwise the descriptor at the output offset is patched in place, and a mode switch, filled as the driver fills it, is sent only when something was rewritten. The request always completes with the device's status and byte count. |

## Left out

- Driver entry, device add, context cleanup, request queue dispatch and the
  Set Feature completion routine are not modelled. They are host framework
  plumbing, and none of them acts on the descriptor.
- The trace logging and the ioctl-name helper are not modelled; they are
  diagnostics only. `Pad2Screen/Driver.h` is not part of this model.
- The value 0xB0007 of `IOCTL_HID_GET_REPORT_DESCRIPTOR` is taken from the
  Windows header `hidport.h`, which is not part of this model.
- Failures of the framework calls in the mode switch are not modelled: request
  creation, memory allocation, request formatting and sending. On each of them
  the driver gives up silently, and the completion routine ignores the result anyway.
- The asynchronous sending of the feature request is not modelled: the model
  returns the report that would be sent. Concurrency is not modelled.
- ForwardCompletion.ForwardIoctlCompletion: the output buffer's offset and length come
  from the completion parameters. The model requires them to lie inside the
  buffer when the routine patches, which the driver trusts without checking.
- UsageRewriter.PatchDescriptor: on a truncated trailing item it stops, and
  changes no byte outside the descriptor. The driver reads on past the
  descriptor. When the truncated item is a Usage header at depth 0 on the
  Digitizers page, and the byte after the descriptor is 05, the driver writes
  04 into that byte, one past the descriptor. It then reports a change, and the
  completion routine calls the mode switch. The switch sends a report only when an
  Input Mode field comes before the truncated Usage header: for `05 0D 09` it sends
  nothing (`ForwardCompletion.OverrunWithoutInputMode`), for
  `ForwardCompletion.OVERRUN_DESCRIPTOR` it sends one
  (`ForwardCompletion.OverrunTriggersModeSwitch`). The model neither writes past
  the descriptor nor reports a change; see "## Findings" and
  `UsageRewriter.RewritePastDescriptor`. The driver would also
  count a truncated Collection header, but that cannot change what it rewrites.
  (End Collection has no value bytes and cannot be truncated.)
- ForwardCompletion.ForwardIoctlCompletion: for the same reason, its promise that
  no byte outside the descriptor changes holds for the model, not for the driver
  on a truncated trailing Usage header.
- InputModeLocator.GetInputMode: on a truncated trailing item it stops, instead of
  reading past the buffer. The driver would still answer at a truncated Feature
  header that qualifies, because that branch does not read the missing value.
- ModeSwitch.SetToPrecisionTouchpadMode: at width 0 the driver writes the mode
  value one byte past its 1-byte buffer, which is undefined behaviour. The model
  does not write it and reports the overrun in the result instead.
- The `int` depth counters are unbounded in the model. The driver's 32-bit `int`
  would need more than 2^31 nested collections to overflow.
- The Report Count global is tracked by the locator but, as in the driver, never used.
- The value of multi-byte items is read as its first byte only, as the driver
  reads it. The recognised headers all have 1-byte values, so this matters only
  for headers the driver does not recognise.

## Findings

| source | as written | input that shows it | evidently intended | confidence | as-written member | corrected member |
|---|---|---|---|---|---|---|
| Pad2Screen/Driver.c:259-263 | The loop zeroes bytes 0 to width-1 after the Report ID and the mode value have been written, erasing both when the width is at least 2, and the Report ID when it is 1. At width 1 the last byte is the mode value 3; from width 2 on it is whatever the uncleared buffer held. | Input Mode in report 5 with Report Size 2 (width 1): the driver sends `00 03` instead of `05 03`. With Report Size 16 (width 2) it sends `00 00 ??`. | The Report ID, then the field holding 3, then zeros: `05 03` and `05 03 00`. | not executed | ModeSwitch.FillModeReportAsWritten, ModeSwitch.AsWrittenLosesReportId, ModeSwitch.AsWrittenLosesMode, ModeSwitch.AsWrittenExample, ModeSwitch.ModeSwitchAsSent, ModeSwitch.ModeSwitchExample | ModeSwitch.FillModeReport, ModeSwitch.ModeReportCarriesMode, ModeSwitch.IntendedModeSwitchCarriesInputMode, ModeSwitch.IntendedModeSwitchExample |
| Pad2Screen/Driver.c:248-260 | With Report Size 0 the width is 0, the buffer has 1 byte, and the mode value is written one byte past its end. | `05 0D 09 0E A1 01 85 05 75 00 09 52 B1 02` (width 0, shown by `InputModeLocator.ZeroWidthInputModeExample`). | No write outside the buffer; the report is the Report ID alone. | not executed | ModeSwitch.FillModeReportAsWritten, ModeSwitch.ModeSwitchAsSent | ModeSwitch.FillModeReport |
| Pad2Screen/Driver.c:113-133 | The loop checks only that an item starts inside the descriptor. It reads the item's value, and may rewrite it, without checking that the value lies inside. | Descriptor `05 0D 09` (length 3), followed in memory by `05`. The driver writes `04` at offset 3, outside the descriptor, and returns true; the completion routine calls the mode switch, which finds no Input Mode field and sends nothing. With `05 0D 09 0E A1 01 85 05 75 02 09 52 B1 02 C0 05 0D 09` followed by `05`, the driver writes `04` at offset 18 and then sends `00 03`, where the model rewrites nothing and sends nothing. | A truncated trailing item is not interpreted: no byte outside the descriptor is read or written, and nothing is reported. | not executed | UsageRewriter.TargetsAsWritten, UsageRewriter.RewritePastDescriptor, ForwardCompletion.OverrunTriggersModeSwitch, ForwardCompletion.OverrunWithoutInputMode | UsageRewriter.PatchDescriptor, UsageRewriter.TargetsAreTouchPadUsages |
