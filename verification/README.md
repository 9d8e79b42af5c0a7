# Register fields, the XUSB configuration space and the IVC protocol

This project models three connected parts of the boot loader and proves what they keep.

**The register-field macros.** A field is a range `hi:lo` of a hardware header. `Bits.dfy`
gives unsigned words with the C operators; `Drf.dfy` the macros of the `unsigned long`
family, the `unsigned int` family and the 64-bit variant; `DrfRuns.dfy` sequences of
modifications and words built from zero; `NvCommon.dfy` the lowest-bit helpers. Operand
widths are explicit, `unsigned long` is 64 bits, and a shift by the width or more is
undefined. The macros reduce both ends of a range modulo 32, so most results are stated
for every range, malformed ones included.

**The XUSB device configuration space** (`XusbConfig.dfy`, `XusbBook.dfy`, `XusbRuns.dfy`). A register file
with the reset values and masks of the header, stepped by software writes and hardware
events. The header names masks but does not say how they act; the model takes a software
write to replace exactly the bits of the write mask, except that a bit of the clear mask is
cleared by writing one, as section 3.2.4 of the PCI Bus Power Management Interface
Specification 1.2 has it for the PME status. Bits without a reset value are strapped. The
bus status bits of CFG_1 and the pending bits may be driven by hardware at any time.

**The IVC protocol.** Two endpoints share two rings of frames and reset them by a handshake.
`IvcProtocol.dfy` is a state machine whose steps are single accesses to shared memory or a
notification, taken by the two endpoints in any order; the calls of one endpoint do not
overlap. An endpoint may restart at any moment, losing its positions; it then resets the
channel, as the BPMP client does, or resynchronises, and the model records which operation
the restart cut short.
`IvcSafety.dfy` has the invariant, `IvcReset.dfy` and `IvcPolicy.dfy` say when a reset is
safe, `IvcHandshake.dfy` has progress, `IvcNotify.dfy` notifications, `IvcResync.dfy`
resynchronisation, and `IvcRuns.dfy` what they share about runs. In `IvcEndpoint.dfy` the
operations of an endpoint are a class, each method proved equal to its steps.

## Where code and documentation differ

- The handler's comment at tegra-ivc.c:578-582 says that a peer in ACK makes no progress
  until this endpoint changes its state. A peer whose own handler has already read this
  endpoint's earlier state does. `ResetIsSafeExactly` gives the
  exact condition for a reset. `SafePoliciesExactly` gives all the rules a caller can
  follow by looking first, and so the weakest that permits any reset.
- `tegra_ivc_channel_sync` is there to resynchronise across a reboot and refuses only an
  empty ring. A caller that always uses it is unsafe whatever the ring size. It is safe
  when the ring size divides 2^32 and the reboot did not cut a handler between its first
  clear and its store; for other ring sizes only after a reboot between a store and its
  notification (`ResyncIsSafeExactly`). It loses no notification exactly when the reboot did
  not come between a counter and the decision to notify, or between a state and its
  announcement (`MissesNothingExactly`). It cannot stall the handshake exactly when the
  reboot cut no reset or handler (`StallFreeExactly`). What remains good for all three, with
  a ring size that divides 2^32, is a reboot between operations or before a transfer
  advances its counter.
- The overlap check of `check_ivc_params` leaves out the channel headers and lets its sums
  wrap (`AcceptedQueuesAreDisjointExactly`).
- The driver includes `tegrabl_drf.h`, a copy of these macros that also casts its arguments to 32 bits,
  which changes nothing for the constants it passes. Its comment at tegrabl_xusbf.c:2537 names
  IO_SPACE, but the code does not set it.
- The header's prose gives INTR_LINE a reset value of 0xff; its constant gives zero. The
  status bits of CFG_1 have `_CLEAR` values but a zero clear mask. The model follows the
  constants.
- Negating the smallest 32-bit integer, as the lowest-bit macro does for 0x80000000, is
  undefined in C; the model wraps.

## Model

| member | source | states |
|---|---|---|
| IvcSafety.EveryDisciplinedRunIsSafe | bootloader/partner/common/lib/ipc/tegra-ivc.c:493-759 | from zeroed channels, for every ring size, every interleaving of single memory accesses of the two endpoints, every number of counter wraps and restarts of either endpoint at any moment, if no reset hits a peer committed to ESTABLISHED and no resynchronisation of an ESTABLISHED endpoint follows a cut between clears or meets counters that no longer give the positions: whenever an endpoint may communicate, each side has taken exactly a prefix of what the other sent since the last clear, in order, at most one ring behind, with the frames in between intact; and over the whole run, across all resets and restarts, the frames each side has taken are a subsequence of those the other published, so none is invented, reordered or taken twice |
| IvcReset.ResetIsSafeExactly | bootloader/partner/common/lib/ipc/tegra-ivc.c:493-645 | after every disciplined run from zeroed channels, a reset by either endpoint, between operations or after a restart, leaves every disciplined continuation safe if and only if the peer's handler is not already on its way to storing ESTABLISHED; and some continuation leaves both ends ESTABLISHED with one direction dead until the next reset if and only if it is (the second half for rings of fewer than 2^32 - 1 frames) |
| IvcPolicy.SafePoliciesExactly | bootloader/partner/common/lib/ipc/tegra-ivc.c:493-499 | for every rule by which a caller reads the peer's state word, compares it with its own and then calls reset, the word having possibly changed in between: all runs obeying the rule are safe if and only if it forbids the first reset, from ESTABLISHED having seen ESTABLISHED, or allows nothing but own SYNC, or seen ESTABLISHED, or own ESTABLISHED with seen SYNC |
| IvcPolicy.LaxPolicyFails | bootloader/partner/common/lib/ipc/tegra-ivc.c:570-603 | for each pair of states outside that rule, a run from zeroed channels that obeys the laxer rule and ends with both endpoints idle and ESTABLISHED, frames taken that are no prefix of those sent, and, for rings of fewer than 2^32 - 1 frames, one ring that its writer finds full and its reader finds empty for as long as nobody resets |
| IvcPolicy.StepKeepsLooks | bootloader/partner/common/lib/ipc/tegra-ivc.c:521-645 | what a look allowed by that rule still says about the peer, however late the reset that follows it |
| IvcPolicy.LookSees | bootloader/partner/common/lib/ipc/tegra-ivc.c:525-528 | a look, wherever a caller may reset, sees the peer's state word as it is and changes nothing else |
| IvcReset.OutOfStepIsJammed | bootloader/partner/common/lib/ipc/tegra-ivc.c:88-124 | the writer counting from zero against a reader that counts one: every reset-free continuation finds the ring full at one end and empty at the other |
| IvcReset.CommittedPeerSetsTrap | bootloader/partner/common/lib/ipc/tegra-ivc.c:570-631 | the stale observation behind the failure: after such a reset one endpoint is ESTABLISHED while the other, in SYNC, is still to clear its counters |
| IvcReset.TrapSprings | bootloader/partner/common/lib/ipc/tegra-ivc.c:245-645 | from there both endpoints finish their operations and end idle, ESTABLISHED and out of step |
| IvcHandshake.HandshakeNeverStalls | bootloader/partner/common/lib/ipc/tegra-ivc.c:501-645 | in every run from zeroed channels, access by access, with resets, disciplined or not, and restarts anywhere, if no resynchronisation follows a restart that cut a reset or a handler: when both endpoints are between operations and each has read the other's state since the other's last notification, both are ESTABLISHED |
| IvcHandshake.StallFreeExactly | bootloader/partner/common/lib/ipc/tegra-ivc.c:647-659 | for every set of cuts after which a caller resynchronises instead of resetting: no run stalls if and only if the set has none of the three cuts of a reset or handler, namely after reading the peer's state, between clears and store, and between store and notification |
| IvcHandshake.HandshakeCompletes | bootloader/partner/common/lib/ipc/tegra-ivc.c:501-645 | after every such run the endpoints can make at most 92 steps, in any order, that carry on operations or handle notifications; when none is left both are ESTABLISHED, unless one is down after a restart |
| IvcHandshake.PollingCompletes | bootloader/partner/common/lib/ipc/tegrabl_bpmp_fw_interface.c:314-317 | for callers that poll: after any run from zeroed channels whatsoever, four rounds without resets or restarts, in each of which both ends make a whole call of the handler among any other accesses, leave both ends ESTABLISHED until somebody resets or restarts |
| IvcHandshake.UrgentStep | bootloader/partner/common/lib/ipc/tegra-ivc.c:521-645 | the measure behind the bound: every such step lowers it |
| IvcRuns.SwappedRun | bootloader/partner/common/lib/ipc/tegra-ivc.c:521-645 | exchanging the endpoints of a run exchanges them in its result and keeps every rule it obeys |
| IvcRuns.RestartAfter | bootloader/partner/common/lib/ipc/tegra-ivc.c:728-759 | which operation a restart cuts short, by the access that preceded it |
| IvcSafety.StepKeepsInv | bootloader/partner/common/lib/ipc/tegra-ivc.c:138-759 | every single access by either endpoint keeps the invariant of the protocol, as does a restart at any moment; a reset provided the peer is not committed, a resynchronisation provided the counters give the positions |
| IvcSafety.DisciplinedRunKeepsInv | bootloader/partner/common/lib/ipc/tegra-ivc.c:138-759 | the invariant holds after every disciplined run |
| IvcSafety.ClearingIsHarmless | bootloader/partner/common/lib/ipc/tegra-ivc.c:530-568 | an endpoint that clears counters while its peer is established clears only what is clear already |
| IvcSafety.FramesArriveInOrder | bootloader/partner/common/lib/ipc/tegra-ivc.c:245-291 | the frame copied out is the next one the peer sent, and taking it extends the received prefix by exactly that frame |
| IvcSafety.SlotBeingReadIsStable | bootloader/partner/common/lib/ipc/tegra-ivc.c:264-270 | while a frame is being read its slot holds the frame sent and no step of the sender changes it |
| IvcSafety.CountersTellTheTruth | bootloader/partner/common/lib/ipc/tegra-ivc.c:88-136 | for an active endpoint the wrapped 32-bit difference is the true number of frames in flight, full means a ring's worth and empty means all taken |
| IvcSafety.WrappedCounters | bootloader/partner/common/lib/ipc/tegra-ivc.c:88-136 | unsigned subtraction of counters reduced modulo 2^32 gives the distance of the unreduced counts |
| IvcSafety.TestsExactly | bootloader/partner/common/lib/ipc/tegra-ivc.c:88-124 | for all 32-bit counters, with one a given number of increments ahead of the other: the ring is empty exactly when that number is zero or exceeds the ring size, and full exactly when it is at least the ring size |
| IvcSafety.OverFullIsSilent | bootloader/partner/common/lib/ipc/tegra-ivc.c:98-124 | counters further apart than the ring is long make it empty to its reader and full to its writer |
| IvcNotify.NoLostNotification | bootloader/partner/common/lib/ipc/tegra-ivc.c:411-419 | in every disciplined run in which no resynchronisation follows a restart that lost a notification, an endpoint that found its ring empty or full and was not notified since still finds it so once its peer is between operations |
| IvcNotify.WaitingBegins | bootloader/partner/common/lib/ipc/tegra-ivc.c:174-200 | an endpoint is counted as waiting from the moment it finds its ring empty or full |
| IvcNotify.MissesNothingExactly | bootloader/partner/common/lib/ipc/tegra-ivc.c:647-659 | for every set of cuts after which a caller resynchronises: no disciplined run misses a notification if and only if the set has neither the cut between advancing a counter and deciding to notify nor the cut between storing a state and announcing it |
| IvcNotify.WriteNotifiesExactly | bootloader/partner/common/lib/ipc/tegra-ivc.c:402-419 | whatever the peer does between the publication of a frame and the decision to notify, the writer notifies exactly when the peer has by then taken every earlier frame and not this one; so a write to an empty ring notifies unless the frame is gone already |
| IvcNotify.ReadNotifiesExactly | bootloader/partner/common/lib/ipc/tegra-ivc.c:271-288 | whatever the peer does in between, the reader notifies exactly when the frames sent by then would fill the ring if the one just read were still in it |
| IvcNotify.SpuriousNotification | bootloader/partner/common/lib/ipc/tegra-ivc.c:411-419 | a run in which a write that found the ring not empty notifies |
| IvcResync.ResyncIsSafeExactly | bootloader/partner/common/lib/ipc/tegra-ivc.c:647-659 | for every ring size and every set of cuts after which a caller resynchronises: every run with disciplined resets is safe and takes no frame twice if and only if the set lacks the cut between the first clear of a handler and its store, and either the ring size divides 2^32 or the set has no cut but the one between storing a state and announcing it |
| IvcResync.ResyncAlwaysIsUnsafe | bootloader/partner/common/lib/ipc/tegra-ivc.c:647-659 | so a caller that resynchronises after every restart, as the call itself permits, is unsafe for every ring size |
| IvcResync.TakenTwice | bootloader/partner/common/lib/ipc/tegra-ivc.c:521-568 | for every ring size and frame, a run in which an endpoint restarts in its handler after the clears, resynchronises, and takes the same frame a second time |
| IvcResync.ResyncMisdelivers | bootloader/partner/common/lib/ipc/tegra-ivc.c:647-659 | for every ring size that does not divide 2^32, every frame and every cut outside reset and handler stores, a run of about 2^32 frames, a restart at that cut and a resynchronisation after which that frame is sent and what another slot held before is received in its place |
| IvcResync.SyncRestoresExactly | bootloader/partner/common/lib/ipc/tegra-ivc.c:650-659 | whatever the positions were, recomputing them gives the right ones exactly when the two counts have the same remainder by the ring size before and after reduction modulo 2^32 |
| IvcEndpoint.HandlerFollowsTable | bootloader/partner/common/lib/ipc/tegra-ivc.c:501-519 | a whole handler call moves, clears and notifies as the nine rows of the transition table say and changes nothing else |
| IvcEndpoint.OperationsSeeSharedMemoryOnly | bootloader/partner/common/lib/ipc/tegra-ivc.c:55-75 | what an operation does depends on the peer through the words in shared memory only, so the view an endpoint has of its peer stands for the peer |
| IvcEndpoint.WriteThenRead | bootloader/partner/common/lib/ipc/tegra-ivc.c:245-422 | a frame written to an empty ring is the frame the peer's read returns |
| IvcEndpoint.AcceptedQueuesAreDisjointExactly | bootloader/partner/common/lib/ipc/tegra-ivc.c:676-726 | for all 64-bit bases, queues accepted by the parameter check overlap exactly when the frames of the lower one pass the last address, or the bases are the frames alone or the frames and half a header apart, or the upper queue comes around to the lower one |
| IvcEndpoint.AcceptedQueuesCanOverlap | bootloader/partner/common/lib/ipc/tegra-ivc.c:707-723 | two accepted pairs that overlap, by the header and by a sum that wraps |
| IvcEndpoint.Ivc.constructor | bootloader/partner/common/lib/ipc/tegra-ivc.c:750-756 | starting an endpoint on memory in use is the restart step: both positions at zero, shared words untouched |
| IvcEndpoint.Init | bootloader/partner/common/lib/ipc/tegra-ivc.c:728-759 | refuses parameters the check rejects and frames above 2^31 bytes, in that order, and otherwise starts the endpoint with both positions at zero |
| IvcEndpoint.AcceptedExactly | bootloader/partner/common/lib/ipc/tegra-ivc.c:676-726 | the check accepts exactly when bases and frame size are multiples of 64, the frames take less than 2^32 bytes, and the end of the lower frames, reduced by 2^64 if it passes that, is at most the upper base; the order of the two bases does not matter |
| IvcEndpoint.StartBoth | bootloader/partner/common/lib/ipc/tegra-ivc.c:728-759 | two endpoints started on zeroed channels are a system from which the runs of the safety theorems start |
| IvcEndpoint.SameMemory | bootloader/partner/common/lib/ipc/tegra-ivc.c:55-75 | what each endpoint sees of its peer through the two channels is what the peer is |
| IvcEndpoint.HandedSlotIsAdvancedExactly | bootloader/partner/common/lib/ipc/tegra-ivc.c:447-491 | if the caller runs its handler between being handed a slot and advancing, the slot advanced is the one handed out exactly when no call cleared the counters or it was the first slot; the same for a frame being read |
| IvcNotify.HandedSlotStays | bootloader/partner/common/lib/ipc/tegra-ivc.c:447-463 | whatever the peer does meanwhile, the slot handed out for writing holds no frame in flight and the advance is not refused |
| IvcNotify.HandedFrameStays | bootloader/partner/common/lib/ipc/tegra-ivc.c:325-353 | whatever the peer does meanwhile, the frame handed out for reading is the next one sent, stays in its slot, and the advance is not refused |
| IvcEndpoint.FrameCallsAreAWrite | bootloader/partner/common/lib/ipc/tegra-ivc.c:447-491 | filling the slot handed out and advancing is a write |
| IvcEndpoint.Ivc.Write | bootloader/partner/common/lib/ipc/tegra-ivc.c:376-422 | refuses an oversized buffer, a channel not established or a full ring without publishing; otherwise publishes the zero-padded buffer; an over-full ring is refused; the endpoint changes by exactly the protocol steps of a write |
| IvcEndpoint.Ivc.Read | bootloader/partner/common/lib/ipc/tegra-ivc.c:245-291 | refuses an oversized request, a channel not established or an empty ring; otherwise returns the head of the next frame; an over-full ring is refused; the endpoint changes by exactly the protocol steps of a read |
| IvcEndpoint.Ivc.WriteNextFrame | bootloader/partner/common/lib/ipc/tegra-ivc.c:447-454 | hands out the slot at the write position, or nothing if the channel is not established or the ring is full |
| IvcEndpoint.Ivc.WriteAdvance | bootloader/partner/common/lib/ipc/tegra-ivc.c:457-491 | refuses a channel not established or a full ring; otherwise publishes the slot as it is; the endpoint changes by exactly the steps of a write without its copy |
| IvcEndpoint.Ivc.ReadNextFrame | bootloader/partner/common/lib/ipc/tegra-ivc.c:325-340 | hands out the frame at the read position, or nothing if the channel is not established or the ring is empty or over-full |
| IvcEndpoint.Ivc.ReadAdvance | bootloader/partner/common/lib/ipc/tegra-ivc.c:342-374 | refuses a channel not established or a ring empty or over-full; otherwise the endpoint changes by exactly the steps of a read |
| IvcEndpoint.Ivc.ChannelReset | bootloader/partner/common/lib/ipc/tegra-ivc.c:493-499 | the endpoint changes by exactly the steps of a reset, from any point where a caller may reset, and what it sees of its peer does not change |
| IvcEndpoint.Ivc.ChannelNotified | bootloader/partner/common/lib/ipc/tegra-ivc.c:521-645 | the endpoint changes by exactly the handler's steps; the result says whether it is established |
| IvcEndpoint.Ivc.ChannelSync | bootloader/partner/common/lib/ipc/tegra-ivc.c:650-659 | rejects a ring of no frames, otherwise is the resynchronisation step |
| DrfRuns.RunRefinesMap | core/include/nvrm_drf.h:57-118 | any sequence of field modifications over pairwise disjoint fields acts on the register as the same updates act on a map from field to value |
| DrfRuns.EachFieldReadsLastWrite | core/include/nvrm_drf.h:90-118 | after any such sequence each field reads back the number last written to it, reduced to its size, or its starting value, and bits outside the written fields are unchanged |
| DrfRuns.ViewIsFaithful | core/include/nvrm_drf.h:103-105 | the field values and the uncovered bits determine the register |
| DrfRuns.CollapseToMaskedWrite | core/include/nvrm_drf.h:60-118 | every sequence of modifications, overlapping fields and malformed ranges included, is one masked write with two constants independent of the starting word |
| DrfRuns.EffectIsMaskAndValue | core/include/nvrm_drf.h:117-118 | two sequences have the same effect on every word if and only if those two constants agree |
| DrfRuns.OrderIsIrrelevant | core/include/nvrm_drf.h:117-118 | sequences made of the same conflict-free updates, in any order and with any repetitions, give the same word |
| DrfRuns.AnyPermutation | core/include/nvrm_drf.h:117-118 | in particular any permutation does |
| DrfRuns.LaterWriteWins | core/include/nvrm_drf.h:117-118 | two writes to one field leave what the second alone leaves |
| DrfRuns.BuildIsSum | core/include/nvrm_drf.h:28-45 | over fields that do not overlap the OR of the terms is their arithmetic sum |
| DrfRuns.BuildIgnoresOrder | core/include/nvrm_drf.h:32-33 | the OR does not depend on the order of the terms |
| DrfRuns.BuildReadsBack | core/include/nvrm_drf.h:90-105 | every value can be read back from the word built, reduced to the size of its field |
| DrfRuns.DisassembleAndRebuild | core/include/nvrm_drf.h:90-105 | reading every field of a register and OR-ing the pieces restores it |
| DrfRuns.HalfTerm | core/include/nvrm_drf.h:65-66 | the 64-bit term of a field inside one 32-bit half is the 32-bit term moved to that half |
| DrfRuns.JoinTheHalves | core/include/nvrm_drf.h:153-155 | building a 64-bit register directly is building its halves and joining them |
| DrfRuns.Build64Bit | core/include/nvrm_drf.h:153-155 | for all fields, those across both halves included, the OR of 64-bit terms is undefined exactly when some range is reversed modulo 64 and otherwise has exactly the bits some term sets |
| Drf.SetBits | core/include/nvrm_drf.h:117-118 | the modify macro replaces exactly the bits the range covers modulo 32, for every range |
| Drf.Num64Bits | core/include/nvrm_drf.h:65-66 | the 64-bit term is undefined exactly when the range is reversed modulo 64, and otherwise has the low bits of the number in exactly the bits of the range |
| Drf.ReadBack | core/include/nvrm_drf.h:103-118 | a modified field reads back the low bits of the number written |
| Drf.ReadOther | core/include/nvrm_drf.h:103-118 | modifying one field leaves every disjoint field as it was |
| Drf.ValIsDivMod | core/include/nvrm_drf.h:103-105 | reading a field is division by the shift and reduction to the width |
| Drf.NumIsTimes | core/include/nvrm_drf.h:90-92 | a term is the reduced number multiplied by the shift |
| Drf.MaskExact | core/include/nvmisc_macros.h:31-46 | for every range the masks have the size of the range if and only if it stays in one 32-bit word; the 32-bit mask is undefined, and the long one zero, exactly when the ends are reversed modulo 32; otherwise both are too short |
| Drf.FamiliesAgree | core/include/nvmisc_macros.h:37-57 | wherever the 32-bit macros are defined the two families agree on 32-bit operands, results fit in 32 bits, and a modification keeps bits 32 and up |
| Drf.DefAgreesExactly | core/include/nvrm_drf.h:130-132 | setting a defined constant agrees with setting a number on every word if and only if what remains of the shifted constant in 64 bits fits the width of the field; otherwise a bit outside the field is set |
| Drf.DefBits | core/include/nvrm_drf.h:78-79 | each bit of the word a defined constant gives, for every range and constant |
| NvCommon.LowestBitDivides | core/include/nvcommon.h:169-170 | the result is the largest power of two that divides the argument; zero gives zero |
| NvCommon.PowerOf2Exactly | core/include/nvcommon.h:172-173 | the predicate accepts exactly zero and the powers of two |
| NvCommon.MaskShape | core/include/nvmisc_macros.h:37-46 | the lowest bit of a shift-mask is one shifted into place, the shift-mask is the mask times that bit, and the mask plus one passes the power-of-two test even when it wraps to zero |
| Layouts.HidRevDefaultsAreItsReset | hwinc-t19x/41334769/arapb_misc_gp.h:49-102 | the field defaults OR-ed in any order are the reset value and each can be read from it |
| Layouts.HidRevFields | hwinc-t19x/41334769/arapb_misc_gp.h:53-102 | the four fields as quotients and remainders of the register word |
| XusbConfig.QuietBit | hwinc-t19x/41334769/ardev_t_fpci_xusb_dev_0.h:214-221 | in every run a bit the hardware does not drive is the one last written if it is writable and its reset value otherwise |
| XusbConfig.QuietRegister | hwinc-t19x/41334769/ardev_t_fpci_xusb_dev_0.h:1451-1458 | a register the hardware does not drive is the word last written merged into its reset value by the write mask |
| XusbConfig.DrivenBit | hwinc-t19x/41334769/ardev_t_fpci_xusb_dev_0.h:149-192 | in every run a bus status bit or pending message is the one the hardware drove last, whatever software writes |
| XusbConfig.SubsystemIds | hwinc-t19x/41334769/ardev_t_fpci_xusb_dev_0.h:879-904 | in every run CFG_11 is the word last written at offset 0x40, or zero |
| XusbConfig.OtherWritesAreIgnored | hwinc-t19x/41334769/ardev_t_fpci_xusb_dev_0.h:896-904 | a software write anywhere but at the thirteen writable offsets, 0x2C included, changes no register |
| XusbRuns.EveryRegisterExactly | hwinc-t19x/41334769/ardev_t_fpci_xusb_dev_0.h:77-1911 | what software reads at each of the twenty offsets after every run, in plain arithmetic: from the data last written at a literal offset, the status and messages last driven by the hardware, the straps, and the outstanding PME events |
| XusbRuns.FieldsUsed | hwinc-t19x/41334769/ardev_t_fpci_xusb_dev_0.h:224-255 | the command and PMCSR fields the driver and the power management code use, as quotients and remainders of the register words |
| XusbBook.Cfg1Status | hwinc-t19x/41334769/ardev_t_fpci_xusb_dev_0.h:337-448 | in every run bits 19, 24 and 27 to 31 of CFG_1 are those the hardware drove last |
| XusbRuns.PmeStatusTracksEvents | hwinc-t19x/41334769/ardev_t_fpci_xusb_dev_0.h:1319-1388 | in every run PMESTATUS is pending exactly when some PME event has not been acknowledged since |
| XusbRuns.PmeSurvivesExactly | hwinc-t19x/41334769/ardev_t_fpci_xusb_dev_0.h:1327-1388 | for a read after any run, any events before the write-back and any field updates: a PME is pending afterwards exactly when one was pending just before the write-back and the last update touching bit 15 put a zero there, or none touched it and no PME was pending at the read |
| XusbRuns.PowerStateAndPme | hwinc-t19x/41334769/ardev_t_fpci_xusb_dev_0.h:1331-1388 | changing only PWRSTATE leaves a PME pending exactly when one is pending at the write-back and none was at the read; also writing PMESTATUS as zero keeps every pending PME |
| XusbRuns.PowerStateIsStored | hwinc-t19x/41334769/ardev_t_fpci_xusb_dev_0.h:1331-1341 | a read-modify-write that ends with PWRSTATE stores the power state modulo four, whatever happens in between |
| XusbRuns.PmeEnableIsKept | hwinc-t19x/41334769/ardev_t_fpci_xusb_dev_0.h:1359-1367 | a read-modify-write that does not touch the PME enable bit writes back the value read |
| XusbRuns.BarReadsAs | hwinc-t19x/41334769/ardev_t_fpci_xusb_dev_0.h:664-722 | in every run CFG_4 reads as the last word written in its address bits and 0xc below them |
| XusbRuns.WindowIsAligned | hwinc-t19x/41334769/ardev_t_fpci_xusb_dev_0.h:664-751 | in every run the 64-bit base is the word last written at 0x14 above the address bits last written at 0x10, a multiple of 0x8000, and the window ends at or below 2^64 |
| XusbRuns.SizingFinds32K | hwinc-t19x/41334769/ardev_t_fpci_xusb_dev_0.h:644-653 | from every reachable state, with any hardware events in between, the all-ones probe finds a window of 0x8000 bytes, and once the saved word is written back every register is what it would have been without the probe |
| XusbRuns.CapabilityWalkExactly | hwinc-t19x/41334769/ardev_t_fpci_xusb_dev_0.h:984-1006 | in every run the capability walk is decided by bits 15 to 8 of the strapped CFG_17; it ends, without visiting an offset twice, exactly when they are the MSI or MSI mapping capability or null |
| XusbRuns.PointersAreFixed | hwinc-t19x/41334769/ardev_t_fpci_xusb_dev_0.h:1905-1952 | in every run the list starts at 0x44, both MSI capabilities have a null next pointer, and that of CFG_17 is as strapped, each as a byte of its register word |
| XusbRuns.CommandOutcome | bootloader/partner/common/drivers/usbf/xusbf/tegrabl_xusbf.c:2537-2544 | in every build: from every reachable state and with any hardware events between its read and its write, the driver sets memory decoding and bus mastering, and every other command and status bit and every other register is what it would have been without it |
| XusbRuns.BringUpFromAnywhere | bootloader/partner/common/drivers/usbf/xusbf/tegrabl_xusbf.c:2537-2559 | in builds with CONFIG_ENABLE_XUSBF_SS, where the driver also programs BAR0: from every reachable state and with any hardware events between the four accesses, both bits are set, CFG_4 is 0x355000c, and everything else is what it would have been without the driver |

## Left out

- Preprocessor mechanics: token pasting and the ternary that splits `hi:lo`; a field is the pair itself, and the register argument of a macro is a value.
- The per-field default macros of the XUSB header, whose parentheses do not balance.
- AXI_CFG, whose toggle mask the header does not explain, and the reserved read-only registers CFG_6, CFG_12 and CFG_14, to which writes are ignored.
- Multiple MSI vectors: the device is read-only at one vector.
- Reset as an event in the middle of a run of the configuration space; runs start from reset.
- IVC caches and memory ordering weaker than the barriers provide: accesses take effect in program order.
- IVC partial peek and poke calls, which copy part of a frame in place and notify nobody.
- IVC memory that no endpoint has ever initialised: runs start from zeroed channels, and a restart finds what an earlier life left.
- IVC channel placement beyond `check_ivc_params`, and what the hypervisor and BPMP clients send over the channels.
- The rest of the boot loader: drivers, storage, boot control, networking.
