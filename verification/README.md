# A Dafny model of the si91x-rcp-driver cores

This project models eleven pieces of the SiWx91x host driver and of its transmit tool, and proves what
they promise. One module per component:

| module | models |
|---|---|
| `Scheduler` | the WMM transmit scheduler: back-off weights, re-contention, burst credit, strict priority |
| `HeTables`, `Ldpc`, `LdpcDecision`, `PpduTiming` | 802.11ax PPDU timing, LDPC extra-symbol decision and L-SIG LENGTH of the transmit tool |
| `ReplayWindow` | the group-key replay window |
| `StationTable` | the table of associated stations |
| `VifAllocator` | the virtual-interface allocator |
| `TxAccess` | the transmit-access handshake between threads, and the sleep acknowledgement |
| `PowerSave` | the power-save request and confirm protocol |
| `WindowedMemory` | block transfers through the 64 KiB window register |
| `BeaconFilter` | the in-place removal of Country elements from a beacon |
| `FirmwareLoader` | the ping-pong firmware download |
| `SkbRing` | the receive ring of the Bluetooth character device |
| `Arith`, `Wrappers` | shared facts and types |

Code that updates state is modelled by classes and methods with loops. Each method is tied to a function or
predicate on values (`Scheduler.Select`, `TxAccess.Apply`, `ReplayWindow.After`, ...), and the theorems over
whole runs are lemmas about those. Threads are modelled as interleaved atomic steps: a section under a lock is
one step. Kernel services, hardware and the device are non-deterministic outcomes (`*`) or parameters.

## What the code does not meet

Each of these has an exact condition, proved in both directions.

- `min_weight` is a `u8` while weights are 32 bits wide. A first ready queue heavier than 255 competes with its
  low byte, so a lighter queue can lose (`Scheduler.LeastWeightIff`), from the driver's initial state too
  (`Scheduler.HeavierQueueIff`, `Scheduler.HeavierQueueChosen`). Waiting is
  bounded in every run of the driver exactly when no lower-numbered queue has `cw_min / 2 + aifs` equal to 112
  modulo 256; such a queue can win for ever, from a state that four events reach (`Scheduler.BoundedWaitingIff`,
  `Scheduler.DuelReached`). No weight exceeds 255 when that sum is at most 26 (`Scheduler.ContentionValueLimits`).
- The L-SIG length is kept in 16 bits. The length check is right about all packets up to a length, and accepts a
  downward-closed set of them, exactly when the exact L-SIG LENGTH of that one length is below 65536
  (`PpduTiming.CheckIsRightIff`, `PpduTiming.WrappedLengthAccepted`).
- HE-LTF duration and guard interval are those the tool describes (apps/transmit.c:640-656) unless DCM and STBC are
  both set on an SU or ER SU PPDU and the GI and LTF field is not 3: the code then takes the 4x LTF and 0.8 us that
  the description gives to value 3 alone (`PpduTiming.LtfGiIff`).
- Bit 2 of the extra-symbol word is shared by the LDPC extra segment and the PE disambiguity. With an extra segment
  the receiver goes wrong unless the nominal packet extension is 16 us and the final `a` is 4, or 3 with enough room
  left in the last 4 us (`PpduTiming.SharedBitIff`, `PpduTiming.SharedBitMisleads`).
- The LDPC payload counts four short segments where the standard counts a whole symbol, exactly for a full last
  symbol on 106 and 242 tones, and on 26 tones with DCM (`Ldpc.NpldStandardIff`). The decision about the extra
  segment then differs for some symbol count, and for some packet, except on five table entries: 106 tones with
  MCS 0, with or without DCM, and MCS 1 with DCM; 242 tones with MCS 3 without and MCS 0 with DCM
  (`LdpcDecision.DecisionIff`, `PpduTiming.DecisionForPacketsIff`).
- DISABLE_KEY of any key, pairwise ones included, drops the window of the live group key; SET_KEY of another group
  key over it leaves its frames unmatched and unchecked. Under whatever frames arrive, the delivered numbers of an
  installed key only increase exactly when neither happens, but for a key whose previous window is used up
  (`ReplayWindow.HeldKeyIff`; step by step `ReplayWindow.BreachIff`). Otherwise the same frame passes again
  (`ReplayWindow.DeliveredTwice`, `ReplayWindow.UnmatchedPasses`).
- Installing a group key over a live one can bring an older replay window back (`ReplayWindow.RewindIff`); and
  every cipher but CCMP is read in the TKIP layout, which is wrong for CCMP-256 (`ReplayWindow.DecodedNumber`,
  `ReplayWindow.Ccmp256OutOfOrder`).
- `sleep_exit_recvd` scans for waiters after it released the lock. A step that withdraws access during the scan,
  and no other, opens the way to the branch that returns -EPERM after a wake-up (`TxAccess.EpermIff`,
  `TxAccess.EpermReachable`).
- Host and device can come to rest in disagreement about power save. Host calls may overlap in any number; exactly
  a call that returns as the last of them and leaves the host in a state that does not fit the requests sent leads
  there (`PowerSave.AgreementIff`, `PowerSave.RestIff`). That happens when a confirm overtakes the state change of
  rsi_enable_ps (`PowerSave.ConfirmOvertakes`), when two calls set their states in the other order than they sent
  (`PowerSave.CallsCross`), when a call falls between the decision on a confirm and its state change
  (`PowerSave.ConfirmIsTorn`), when the second request of a UAPSD reconfiguration fails (`PowerSave.HalfReconfigured`),
  and, even if every call sets its state at once and every send succeeds, when power save is disabled between its two
  requests (`PowerSave.DisabledBetween`).
- A call that sets its state after the confirm of its request has passed leaves the host waiting for ever, in
  PS_ENABLE_REQ_SENT or PS_DISABLE_REQ_SENT, unless a later call ends that (`PowerSave.RestState`,
  `PowerSave.WaitsForEver`); never if every call sets its state at once (`PowerSave.AtOnceRest`).
- The beacon index is a `u8`: the element loop is right exactly when the filtered beacon is at most 255 bytes
  long (`BeaconFilter.FiltersIff`).
- A short read from the ring frees a frame that stays queued (`SkbRing.Common.Dequeue`).
- Registering an interface twice breaks the allocator's bookkeeping, and a rejected capability frame leaves the
  slot taken (`VifAllocator.Adapter.AddInterface`).
- Restarting an AP empties the station table but not its count. Stations are from then on refused while slots are
  free, once enough others have joined, exactly when some restart met a table that was not empty
  (`StationTable.RefusesWronglyIff`, `StationTable.RefusedAfterRestart`).
- The end of a firmware image is added up in 32 bits: an accepted image fits the flash exactly when the sum did not
  wrap (`FirmwareLoader.AcceptedFitsIff`, `FirmwareLoader.WrappedImageAccepted`).

The comment at apps/transmit.c:1206 assigns m = 1 to SU and TB; the code assigns it to ER SU and MU, as section
27.3.11.5 of IEEE Std 802.11ax-2021 does. The model follows the code.

## Model

| member | source | states |
|---|---|---|
| `Scheduler.Common.DetermineMinWeightQueue` | rsi/rsi_91x_core.c:20-34 | finds the lowest contended queue with a packet, or 4, and leaves the low byte of its weight in `min_weight` |
| `Scheduler.Common.RecalculateWeights` | rsi/rsi_91x_core.c:43-69 | the whole table after the adjustment; reports exactly whether some waiting queue newly entered |
| `Scheduler.Common.LeastBackoff` | rsi/rsi_91x_core.c:162-173 | the two searches yield the lowest ready queue of least key, the first one's key being its low byte |
| `Scheduler.Common.ContendQueues` | rsi/rsi_91x_core.c:159-192 | the retry runs at most twice; the result is INVALID exactly when the data queues are empty |
| `Scheduler.Common.DetermineHalQueue` | rsi/rsi_91x_core.c:130-224 | the selected queue and the new state are those of `Select`; the invariant is kept |
| `Scheduler.Common.GrantCredit` | rsi/rsi_91x_core.c:197-221 | burst credit: one less than the limit by access category, ACM, TXOP and AIFS, capped by the queue length |
| `Scheduler.Common.QueuePkt` | rsi/rsi_91x_core.c:234-245 | appends to the queue of the packet's priority, drops an invalid priority |
| `Scheduler.Common.DequeuePkt` | rsi/rsi_91x_core.c:255-263 | takes the head, or nothing from an empty or invalid queue |
| `Scheduler.Common.Iterate` | rsi/rsi_91x_core.c:283-365 | one iteration is one round of the run; without hardware room nothing is taken but a beacon, or a management frame with a peer to be notified; with it a packet is taken exactly when a queue is selected and no resume interferes; exactly a data packet taken while the hardware is gone is lost; the null-packet branch is unreachable |
| `Scheduler.Common.QosProcessor` | rsi/rsi_91x_core.c:274-375 | for any surroundings: the run receives what they offer; old contents plus arrivals equal sent plus dropped plus remaining for every queue, in order but for the management queue while frames are put in front of it; at most the last packet is dropped, with the hardware gone; with room, hardware, successful sends and data unblocked throughout, as many iterations as packets send everything and leave all queues empty |
| `Scheduler.SelectKeepsInv` | rsi/rsi_91x_core.c:154-157 | burst credit never exceeds the selected queue's length, and is below it right after a selection; a selected queue is never empty |
| `Scheduler.FifoPerQueue` | rsi/rsi_91x_core.c:234-263 | first in, first out and no loss per queue, over every run, for the management queue if nothing is put in front |
| `Scheduler.PacketsConserved` | rsi/rsi_91x_mgmt.c:722-739 | no packet is lost or duplicated in any queue over every run, frames put in front of the management queue included |
| `Scheduler.WorkConserving` | rsi/rsi_91x_core.c:130-192 | with data unblocked, nothing is selected exactly when all six queues are empty |
| `Scheduler.StrictPriority` | rsi/rsi_91x_core.c:130-157 | nothing but a beacon is taken while one waits; no data packet while a management frame waits or data is blocked |
| `Scheduler.BacklogAfterRound` | rsi/rsi_91x_core.c:283-365 | a round takes one packet off the backlog exactly when it hands one over, and with data unblocked it does while any packet waits |
| `Scheduler.CreditIsLongest` | rsi/rsi_91x_core.c:194-221 | after a contention the burst is exactly as long as access category, ACM, TXOP, AIFS and queue length allow |
| `Scheduler.BurstAtMostLongest` | rsi/rsi_91x_core.c:149-221 | over every run, from one contention to the next no more data packets are selected than that |
| `Scheduler.ContestReady` | rsi/rsi_91x_core.c:175-192 | after the retry's recalculation some queue competes unless all data queues are empty |
| `Scheduler.LeastWeightIff` | rsi/rsi_91x_core.c:159-173 | when the selected queue is the lowest of least weight |
| `Scheduler.HeavierQueueIff` | rsi/rsi_91x_core.c:29 | of two queues competing from the initial state the heavier is chosen exactly when its low byte does not exceed the other value |
| `Scheduler.HeavierQueueChosen` | rsi/rsi_91x_core.c:29 | access parameters and arrivals for which the heavier queue is chosen |
| `Scheduler.SubtractionNotClipped` | rsi/rsi_91x_core.c:54-56 | the subtraction of `min_weight` is exact for every queue left in contention |
| `Scheduler.FreshRoundLowersRank` | rsi/rsi_91x_core.c:43-69 | each fresh round lost by a waiting queue lowers its bound |
| `Scheduler.BoundedWaiting` | rsi/rsi_91x_core.c:159-179 | a waiting queue sees at most 4 * contention value + 4 fresh rounds, under any arrivals, bursts, blocking and back-pressure |
| `Scheduler.BoundedWaitingIff` | rsi/rsi_91x_core.c:159-179 | for which access parameters that bound holds in every run from the driver's initial state |
| `Scheduler.DuelReached` | rsi/rsi_91x_mgmt.c:701-711 | the starving state is reached in four events from what rsi_set_contention_vals leaves |
| `Scheduler.Common.SetContentionVals` | rsi/rsi_91x_mgmt.c:701-711 | contention values and weights from CWmin and AIFS; nobody contends; nothing else changes |
| `Scheduler.DuelStarves` | rsi/rsi_91x_core.c:159-179 | for the other values, runs of any length in which the queue is never selected |
| `Scheduler.ContentionValueLimits` | rsi/rsi_91x_mgmt.c:701-711 | which CWmin and AIFS give exact weights, and which give the starving ones |
| `HeTables.ThreeSegmentsFit` | apps/transmit.c:770-773 | for all legal table entries three short segments do not fill a symbol |
| `HeTables.RatesAreStandard` | apps/transmit.c:770-779 | every entry of data bits per symbol is data tones times bits per tone times code rate, with half the tones for DCM |
| `HeTables.ShortRatesAreStandard` | apps/transmit.c:770-779 | the same for a short segment |
| `HeTables.SigBRatesAreStandard` | apps/transmit.c:791-801 | the same for a SIG-B symbol on 52 tones |
| `Ldpc.IntegerTestsMatchStandard` | apps/transmit.c:872-944 | the integer comparisons are the real-valued conditions of the standard for codeword length and extra segment |
| `Ldpc.CodedExact` | apps/transmit.c:848-860 | the divisions by the code rate leave no remainder |
| `Ldpc.SymbolsFitClasses` | apps/transmit.c:842-872 | payload fits the codeword class its coded bits select, even with the surplus of four segments |
| `Ldpc.CodewordsHoldPayload` | apps/transmit.c:872-925 | the chosen codewords hold the payload, and in the open class one fewer would not |
| `Ldpc.BookkeepingExact` | apps/transmit.c:842-937 | shortening is exactly the slack; codeword bits plus repetition equal bits on air plus shortening plus puncturing |
| `Ldpc.ProductsFit32Bits` | apps/transmit.c:872-944 | no 32-bit product wraps |
| `Ldpc.NpldStandardIff` | apps/transmit.c:842-846 | where the code's payload count is the standard's |
| `Ldpc.PlanIsStandard` | apps/transmit.c:872-937 | for one payload count, codeword number and length, shortening and puncturing are those of the standard's real-valued formulas |
| `Ldpc.DecisionIsStandard` | apps/transmit.c:842-944 | wherever the payload count is the standard's, so is the decision about the extra segment |
| `LdpcDecision.DecisionTests` | apps/transmit.c:872-944 | for every payload count the decision is a test on codeword capacity, payload and bits on air |
| `LdpcDecision.SparedNeverDiffers` | apps/transmit.c:842-944 | five deviating table entries whose surplus changes no decision, for any symbol count |
| `LdpcDecision.SurplusDiffers` | apps/transmit.c:842-944 | for each of the other deviating entries a symbol count at which the decision differs |
| `LdpcDecision.DecisionIff` | apps/transmit.c:842-944 | for which segments, MCS, DCM and RU width the decision is the standard's at every symbol count |
| `Ldpc.DecisionDiffers` | apps/transmit.c:842-944 | a full last symbol on 242 tones for which the code adds an extra segment and the standard does not |
| `PpduTiming.SigBLeast` | apps/transmit.c:803-830 | SIG-B symbols are the fewest that hold its bits |
| `PpduTiming.SigBFieldWidths` | apps/transmit.c:803-820 | SIG-B bits are RU allocation, CRC and tail unless compressed, and 21 bits a user in blocks of two with CRC and tail |
| `PpduTiming.LtfGiIff` | apps/transmit.c:984-1059 | when HE-LTF duration and guard interval are those the tool describes for the GI and LTF field |
| `PpduTiming.SuTxTime` | apps/transmit.c:993-1172 | TXTIME of an SU PPDU from the standard's field durations |
| `PpduTiming.TxTimeOverSu` | apps/transmit.c:993-1084 | what ER SU, TB and MU add to the SU PPDU of the same rate and length: 8 us; 4 us and each further HE-LTF; 4 us for each of the fewest symbols that hold SIG-B |
| `PpduTiming.LengthModThree` | apps/transmit.c:1192-1214 | the exact L-SIG LENGTH modulo 3 tells SU and TB from ER SU and MU |
| `PpduTiming.WordSays` | apps/transmit.c:1061-1183 | what the fields of the extra-symbol word mean: final a, packet extension, users and SIG-B symbols |
| `PpduTiming.PreFecPad` | apps/transmit.c:1094-1132 | the statements compute the initial pad |
| `PpduTiming.InitialPadLeast` | apps/transmit.c:1094-1132 | a pad has room for the bits exactly when it is lexicographically at or above the initial one |
| `PpduTiming.NextIsImmediate` | apps/transmit.c:1136-1144 | the LDPC step moves to the very next pad |
| `PpduTiming.PeIsClamped` | apps/transmit.c:1150-1162 | the 32-bit sign test clamps the packet extension at 0, in steps of 4 us up to 16 us |
| `PpduTiming.DisambiguityIsStandard` | apps/transmit.c:1174-1182 | the remainder test is the standard's disambiguity condition |
| `PpduTiming.GetPktDuration` | apps/transmit.c:955-1185 | TXTIME and every field of the extra-symbol word are those of the pad, preamble and packet extension that the lemmas characterise |
| `PpduTiming.SpoofLength` | apps/transmit.c:1186-1215 | the 16-bit L-SIG length |
| `PpduTiming.ReceiverIff` | apps/transmit.c:1192-1214 | the receiver's equations recover symbol count and packet extension exactly when the length did not wrap and the disambiguity bit is right |
| `PpduTiming.DisambiguityIff` | apps/transmit.c:1174-1182 | the disambiguity condition from nominal packet extension, final a, symbol time and the remainder of the airtime |
| `PpduTiming.SharedBitIff` | apps/transmit.c:1134-1182 | when the emitted bit 2 serves as the disambiguity bit, by those parameters; always for BCC |
| `PpduTiming.SharedBitMisleads` | apps/transmit.c:1134-1182 | a 68-byte packet whose emitted bit 2 makes the receiver miss the symbol count |
| `PpduTiming.FinalPadMonotone` | apps/transmit.c:1094-1145 | a longer packet never uses a smaller pad, with BCC or LDPC |
| `PpduTiming.LengthMonotone` | apps/transmit.c:1165-1214 | TXTIME and the exact length never decrease with the packet length |
| `PpduTiming.OneByteLength` | apps/transmit.c:1165-1214 | one more byte lengthens the exact length by at most 256 |
| `PpduTiming.FirstWrap` | apps/transmit.c:1258-1260 | below every packet of 65536 or more lies one that is wrongly accepted, right above one that is rejected |
| `PpduTiming.CheckIsRightIff` | apps/transmit.c:1258-1260 | the check is right about all packets up to a length, and accepts a downward-closed set of them, exactly when the exact length of that one does not wrap |
| `PpduTiming.AcceptedDownwardClosed` | apps/transmit.c:1216-1260 | below the first wrap, shorter packets of an accepted one are accepted |
| `PpduTiming.WrappedLengthAccepted` | apps/transmit.c:1216-1260 | parameters within the tool's ranges for which an overlong packet is accepted |
| `PpduTiming.LdpcExactForEveryPacket` | apps/transmit.c:1134-1135 | exact LDPC accounting for every packet length and legal parameters, and no product of the comparisons or tests wraps |
| `PpduTiming.DecisionDiffersForPacket` | apps/transmit.c:1134-1145 | a 68-byte packet for which the extra segment differs from the standard |
| `PpduTiming.DecisionForPacketsIff` | apps/transmit.c:1134-1145 | for which table entries the extra segment is the standard's for every packet length |
| `ReplayWindow.MemcmpIsNumericOrder` | rsi/rsi_91x_mac80211.c:2632-2633 | memcmp on big-endian strings is the numeric order |
| `ReplayWindow.DecodedNumber` | rsi/rsi_91x_mac80211.c:2550-2629 | both layouts decode to the 48-bit number; when a CCMP header survives the TKIP layout |
| `ReplayWindow.CounterNumber` | rsi/rsi_91x_mac80211.c:2091-2097 | the bytes stored for a TKIP counter are its 48-bit number |
| `ReplayWindow.Ccmp256OutOfOrder` | rsi/rsi_91x_mac80211.c:2609-2629 | under CCMP-256 consecutive packets decode out of order |
| `ReplayWindow.VifPriv.SetKey` | rsi/rsi_91x_mac80211.c:2060-2119 | after a successful installation of a tracked key the window stands at its receive counter; the window for every other cipher, key type and outcome |
| `ReplayWindow.VifPriv.DisableKey` | rsi/rsi_91x_mac80211.c:2121-2133 | the window after a deletion: the current window becomes the previous one |
| `ReplayWindow.VifPriv.ResetWindow` | rsi/rsi_91x_mac80211.c:1104-1106 | the window after the interface is added |
| `ReplayWindow.VifPriv.ValidatePn` | rsi/rsi_91x_mac80211.c:2580-2658 | verdict and new window for a frame |
| `ReplayWindow.VifPriv.InstallThenValidate` | rsi/rsi_91x_mac80211.c:2080-2133 | the first group frame after an installation is dropped exactly when its number is at or below the PN handed over for CCMP, or iv32 * 2^16 + iv16 for TKIP |
| `ReplayWindow.DropsIff` | rsi/rsi_91x_mac80211.c:2632-2657 | a frame of a guarded key id is dropped exactly when its number is at or below the window |
| `ReplayWindow.InstalledWindow` | rsi/rsi_91x_mac80211.c:2080-2119 | right after its installation a key is guarded from its receive counter on |
| `ReplayWindow.InstalledReplaySafe` | rsi/rsi_91x_mac80211.c:2080-2133 | runs that begin with the installation deliver strictly increasing numbers above the receive counter |
| `ReplayWindow.DeletedStillChecked` | rsi/rsi_91x_mac80211.c:2121-2131 | after deletion and installation of another id, frames of the old id are checked against its last window |
| `ReplayWindow.StepKeepsFloor` | rsi/rsi_91x_mac80211.c:2080-2133 | no step lowers the floor of a key id; an accepted number is above it and becomes it |
| `ReplayWindow.ReplaySafe` | rsi/rsi_91x_mac80211.c:2608-2657 | over whole runs, the numbers of all frames delivered under a held key id, checked or not, strictly increase from above the installed value, through deletion and rekeying |
| `ReplayWindow.StepKeepsGuarding` | rsi/rsi_91x_mac80211.c:2087-2131 | while a held key is not reinstalled, no other disabled and none installed over its window, its frames are checked |
| `ReplayWindow.CheckedIff` | rsi/rsi_91x_mac80211.c:2596-2657 | frames of a held key that are handed up lie above a number exactly when the driver has a valid window that matches the key and stands at or above it |
| `ReplayWindow.ContinuationIff` | rsi/rsi_91x_mac80211.c:2608-2657 | from any state, delivered numbers of a held key keep increasing in every undisturbed continuation exactly under that condition |
| `ReplayWindow.BreachIff` | rsi/rsi_91x_mac80211.c:2087-2131 | exactly which steps let a frame of a held key at or below its window through |
| `ReplayWindow.HeldKeyIff` | rsi/rsi_91x_mac80211.c:2080-2131 | which key operations during the life of an installed key keep its delivered numbers increasing, whatever frames arrive between them |
| `ReplayWindow.InstalledKeyIff` | rsi/rsi_91x_mac80211.c:2080-2131 | the same from the installation on, with the receive counter as floor |
| `ReplayWindow.DeliveredTwice` | rsi/rsi_91x_mac80211.c:2721 | after disabling a pairwise key any delivered frame of the group key is delivered again |
| `ReplayWindow.UnmatchedPasses` | rsi/rsi_91x_mac80211.c:2650-2657 | after installing another group key over the current one any frame of the first is delivered any number of times |
| `ReplayWindow.DeleteFirstIsSteady` | rsi/rsi_91x_mac80211.c:2121-2131 | deleting before installing is enough for that |
| `ReplayWindow.FloorDropsIff` | rsi/rsi_91x_mac80211.c:1104-1106 | exactly which installations and resets lower the floor of a key id that stays matched |
| `ReplayWindow.RewindIff` | rsi/rsi_91x_mac80211.c:2087-2089 | exactly which installations let an old number pass |
| `StationTable.Common.StaAdd` | rsi/rsi_91x_mac80211.c:2853-2922 | refused exactly at the maximum, and exactly when the drift of the count reaches it with a slot free; else the address map gains the station |
| `StationTable.Common.StaRemove` | rsi/rsi_91x_mac80211.c:3011-3040 | the address map loses exactly that station, and the count goes down with it |
| `StationTable.Common.ApRestart` | rsi/rsi_91x_mac80211.c:1108-1120 | the map is emptied; the count exceeds it by as many more as were in it |
| `StationTable.DriftIsAbandoned` | rsi/rsi_91x_mac80211.c:1108-1120 | over all runs the count exceeds the table by exactly what AP restarts left behind |
| `StationTable.RefusesWronglyIff` | rsi/rsi_91x_mac80211.c:2858-2863 | a station is refused while a slot is free exactly under that drift; no further stations ever meet this exactly when every restart met an empty table |
| `StationTable.RefusedAfterRestart` | rsi/rsi_91x_mac80211.c:1108-1120 | one slot, one station, a restart: the next station is refused |
| `StationTable.Common.FindSta` | rsi/rsi_91x_core.c:421-442 | agrees with the address map for unicast; any occupied slot for broadcast |
| `StationTable.AddThenFind` | rsi/rsi_91x_mac80211.c:2853-2922 | a station just added is found in its slot as the object given, whether its address was new or not |
| `StationTable.RemoveThenFind` | rsi/rsi_91x_mac80211.c:3011-3040 | a station just removed is not found |
| `StationTable.FreeSlotIff` | rsi/rsi_91x_mac80211.c:2858-2885 | a slot is free exactly when fewer stations are bound than there are slots |
| `StationTable.PutBinds` | rsi/rsi_91x_mac80211.c:2886-2916 | filling a free slot, or renewing one, adds one binding and keeps addresses distinct |
| `StationTable.ClearUnbinds` | rsi/rsi_91x_mac80211.c:3029-3030 | clearing a slot removes exactly its binding |
| `VifAllocator.Adapter.AddInterface` | rsi/rsi_91x_mac80211.c:973-1102 | lowest free slot or a refusal; bookkeeping intact exactly when not registered before, or refused |
| `VifAllocator.Adapter.RemoveInterface` | rsi/rsi_91x_mac80211.c:1136-1206 | frees exactly the interface's slot; bitmap, count, ids and mode stay consistent |
| `VifAllocator.Adapter.RecomputeMode` | rsi/rsi_91x_mac80211.c:1190-1198 | the mode is the union of the live types |
| `TxAccess.Common.ProtocolTxAccess` | rsi/rsi_91x_ps.c:279-288 | true exactly when some intention is set |
| `TxAccess.Common.SetIntention` | rsi/rsi_91x_ps.c:403-409 | the locked step of a set call |
| `TxAccess.Common.ReadAccess` | rsi/rsi_91x_ps.c:410 | granted at once exactly when the flag is true |
| `TxAccess.Common.EndWait` | rsi/rsi_91x_ps.c:412-420 | woken exactly when the wait flag was lowered |
| `TxAccess.Common.Recheck` | rsi/rsi_91x_ps.c:413-416 | returns -EPERM exactly when the flag is false |
| `TxAccess.Common.ClearIntention` | rsi/rsi_91x_ps.c:394-402 | the locked step of a clear call, with the acknowledgement |
| `TxAccess.Common.ProcessSleepEntry` | rsi/rsi_91x_mgmt.c:4322-4343 | the sleep-entry step, with or without an intention |
| `TxAccess.Common.SleepExitGrant` | rsi/rsi_91x_ps.c:295-297 | the locked step of a sleep exit |
| `TxAccess.Common.SleepExitScan` | rsi/rsi_91x_ps.c:298-306 | one unlocked step of its scan |
| `TxAccess.GrantedHasAccess` | rsi/rsi_91x_ps.c:378-424 | in every interleaving a thread whose call returned 0 sees access until its own clear |
| `TxAccess.AckOnlyWhenIdle` | rsi/rsi_91x_ps.c:394-402 | sleep is acknowledged, and access withdrawn, only with no intention set and no call granted |
| `TxAccess.SleepEntryOutcome` | rsi/rsi_91x_mgmt.c:4322-4343 | a sleep entry with an intention gives access, leaves no waiter unroused and owes the acknowledgement; without one it withdraws access and acknowledges |
| `TxAccess.OwedUntilPaid` | rsi/rsi_91x_ps.c:394-402 | only an acknowledgement ends the debt, and the clear that leaves no intention withdraws access and pays it |
| `TxAccess.SleepExitRouses` | rsi/rsi_91x_ps.c:291-307 | a sleep exit gives access and its uninterrupted scan leaves no waiter unroused |
| `TxAccess.WayToGrant` | rsi/rsi_91x_ps.c:403-420 | a caller is granted at once exactly with access, else it waits with its flag up; a roused one is granted exactly with access |
| `TxAccess.RefusalIff` | rsi/rsi_91x_ps.c:410-420 | from any safe state, -EPERM can follow without a change of the access flag exactly when access is withdrawn with a scan under way or a waiter roused |
| `TxAccess.EpermIff` | rsi/rsi_91x_ps.c:291-307 | no call of an undisturbed run returns -EPERM; exactly a withdrawal of access during the scan opens the way to one |
| `TxAccess.EpermReachable` | rsi/rsi_91x_ps.c:394-420 | such a withdrawal happens in a run of the driver |
| `TxAccess.LockedScanIsUndisturbed` | rsi/rsi_91x_ps.c:291-307 | a scan that excluded the locked sections would never be disturbed |
| `PowerSave.Adapter.EnablePs` | rsi/rsi_91x_ps.c:91-102 | a failed send changes nothing; else request and state |
| `PowerSave.Adapter.DisablePs` | rsi/rsi_91x_ps.c:111-123 | a failed send changes nothing; else request and state |
| `PowerSave.Adapter.ConfUapsd` | rsi/rsi_91x_ps.c:233-246 | nothing outside the enabled state; else up to two requests |
| `PowerSave.Adapter.HandlePsConfirm` | rsi/rsi_91x_ps.c:256-277 | the confirm of a sleep takes the host from PS_ENABLE_REQ_SENT to PS_ENABLED, that of a wake-up from PS_DISABLE_REQ_SENT to PS_NONE, and none does anything else; an unknown type is an error |
| `PowerSave.DeliveryKeeps` | rsi/rsi_91x_ps.c:256-277 | processing and confirming change neither what the host nor what the device will end up with |
| `PowerSave.StepStraysIff` | rsi/rsi_91x_ps.c:91-277 | exactly which steps leave, and which rejoin, the states from which host and device will agree |
| `PowerSave.DisagreementIff` | rsi/rsi_91x_ps.c:91-277 | from every shaped state, as all reachable ones are, some run without a straying step ends in disagreement exactly when no call is in progress and the channels will not bring host and device together |
| `PowerSave.AgreementIff` | rsi/rsi_91x_ps.c:91-277 | under any overlap of calls and failing sends: a run without a straying step agrees whenever nothing is in flight; the next step strays exactly when some continuation without another ends in disagreement |
| `PowerSave.RestIff` | rsi/rsi_91x_ps.c:91-277 | for any run of the driver, disagreement at rest exactly when a straying step was the last to leave no call in progress |
| `PowerSave.RestState` | rsi/rsi_91x_ps.c:91-277 | for any run, the state of the host at rest; it waits for ever for a confirm exactly when the last call to leave no other in progress set its state after that confirm had passed |
| `PowerSave.AtOnceRest` | rsi/rsi_91x_ps.c:91-277 | if what is begun is finished first, the host at rest is in PS_NONE or PS_ENABLED; if no step strays, in PS_ENABLED exactly when the last request was sleep |
| `PowerSave.AtomicCallsFit` | rsi/rsi_91x_ps.c:91-123 | a call that sets its state at once after its send, and not inside the handling of a confirm, never strays, whatever other calls are in progress |
| `PowerSave.ConfirmOvertakes` | rsi/rsi_91x_ps.c:91-102 | a run in which the confirm overtakes the state change |
| `PowerSave.WaitsForEver` | rsi/rsi_91x_ps.c:111-123 | a run after which the host waits for ever in PS_DISABLE_REQ_SENT, the device being awake |
| `PowerSave.CallsCross` | rsi/rsi_91x_ps.c:91-123 | a run in which an enabling and a disabling call cross |
| `PowerSave.ConfirmIsTorn` | rsi/rsi_91x_ps.c:256-277 | a run in which a disabling call falls into the handling of a confirm |
| `PowerSave.DisabledBetween` | rsi/rsi_91x_ps.c:233-246 | a run in which power save is disabled between the two requests of a reconfiguration |
| `PowerSave.HalfReconfigured` | rsi/rsi_91x_ps.c:233-246 | a run in which only the wake-up half of a reconfiguration goes out |
| `WindowedMemory.WriteDataRegion` | rsi/rsi_91x_nlsock.c:138-200 | succeeds exactly when the allocation and every device operation did; for any base and block size; when every block stays in a window, success writes exactly the data at the flat address and failure touches nothing outside it |
| `WindowedMemory.ReadDataRegion` | rsi/rsi_91x_nlsock.c:69-135 | succeeds exactly when the allocation and every device operation did; for any base and block size, zero-padded to a whole block; when every block stays in a window, success returns the flat memory |
| `WindowedMemory.WriteThenRead` | rsi/rsi_91x_nlsock.c:69-200 | what one block size wrote another reads back, for any two block sizes whose blocks stay in a window, so for all aligned ones |
| `WindowedMemory.Advance` | rsi/rsi_91x_nlsock.c:172-182 | window and address registers follow the flat address across boundaries |
| `WindowedMemory.AlignedStaysInWindows` | rsi/rsi_91x_nlsock.c:151-182 | an aligned base and a block size that divides the window keep every block in one window |
| `BeaconFilter.Beacon.RemoveCountry` | rsi/rsi_91x_hal.c:848-862 | prefix intact, elements filtered in order in place; the low 12 bits of the descriptor word are the final length, above them is queue number 5 |
| `BeaconFilter.Beacon.FilterElement` | rsi/rsi_91x_hal.c:850-861 | one iteration: the distance to the end strictly decreases, the result to come is unchanged and the descriptor word keeps holding the length |
| `BeaconFilter.KeptCounts` | rsi/rsi_91x_hal.c:848-862 | the filter drops every Country element and no other |
| `BeaconFilter.KeptInOrder` | rsi/rsi_91x_hal.c:848-862 | and leaves the others in their order |
| `BeaconFilter.FiltersIff` | rsi/rsi_91x_hal.c:788-862 | the loop ends with the filtered beacon exactly when that has at most 255 bytes |
| `FirmwareLoader.Adapter.PingPongWrite` | rsi/rsi_91x_hal.c:1175-1212 | on success one fill followed by the announcement of the other buffer |
| `FirmwareLoader.Adapter.AutoFwUpgrade` | rsi/rsi_91x_hal.c:1222-1298 | succeeds exactly when the image is acceptable and every operation succeeded; chunks concatenate to the content, or to a prefix on failure; refused images write nothing; buffers only as announced, pong first |
| `FirmwareLoader.AcceptedFitsIff` | rsi/rsi_91x_hal.c:1250-1253 | an accepted image fits the flash exactly when its end does not wrap in 32 bits |
| `FirmwareLoader.WrappedImageAccepted` | rsi/rsi_91x_hal.c:1250-1253 | an image that crosses 4 GiB is accepted |
| `FirmwareLoader.Adapter.SecureFirmwareLoad` | rsi/rsi_91x_hal.c:1372-1432 | succeeds exactly when every operation did; blocks concatenate to the image padded to whole blocks; buffers only as announced, ping first |
| `FirmwareLoader.FillsAlternate` | rsi/rsi_91x_hal.c:1275-1278 | consecutive fills use opposite buffers |
| `FirmwareLoader.PairKeepsDiscipline` | rsi/rsi_91x_hal.c:1188-1207 | a fill and its answer keep the discipline and extend the image by the chunk |
| `SkbRing.Common.Enqueue` | rsi/rsi_91x_bluedroid.c:136-155 | a bounded FIFO push; a full ring frees the new frame |
| `SkbRing.Common.Dequeue` | rsi/rsi_91x_bluedroid.c:194-225 | a whole-frame request pops; a shorter one, copied or not, frees a frame that stays queued; null exactly for an empty ring or a failed copy; frames stay live exactly for whole-frame requests |
| `SkbRing.Common.Perform` | rsi/rsi_91x_bluedroid.c:136-217 | any sequence of frames offered and whole frames requested behaves as the bounded FIFO |
| `SkbRing.Common.IsQueueEmpty` | rsi/rsi_91x_bluedroid.c:227-231 | the -1 marker means empty |
| `SkbRing.FifoConserves` | rsi/rsi_91x_bluedroid.c:136-217 | over all operations: contents plus taken equal delivered plus remaining, within the bound |
| `SkbRing.DrainsAll` | rsi/rsi_91x_bluedroid.c:194-217 | as many requests as there are frames deliver them all in order and leave nothing |

## Left out

- The scheduler's selection is one step: packets that other threads append between its reads of the queue lengths, and purges at detach, are not modelled.
- Scheduler.Common.QosProcessor: handles a finite sequence of iterations given by its surroundings, because the original loop runs as long as packets arrive; waking stopped mac80211 queues, alignment of buffers and statistics are not modelled.
- The contention values are constant along a run of the scheduler; rsi_set_contention_vals restarts contention and begins a new run.
- PpduTiming.GetPktDuration: takes decoded parameters; the packing into `rate`, `bbp_info` and the TB and MU words is not modelled, nor is the MU user index, which is packed at bit 26 and read at bit 24. The MU resource-unit width is an input, and the reserved allocations on which the code loops for ever are excluded.
- PpduTiming.SpoofLength: signal extension and midambles are 0 as in the code.
- ReplayWindow.VifPriv.ValidatePn: the search for the interface the frame belongs to is an input. Frames of a key id that mac80211 does not hold and that matches neither window pass unchecked in the code and are not counted.
- The GPIO handshake variant, the USB suspend timer and the liveness of waits are not part of `TxAccess`. Each protocol id has one owner thread.
- `PowerSave` has one receive thread, and a device that confirms every request in order.
- WindowedMemory.WriteDataRegion: says what memory holds only when every block stays inside one window, because what the device does at the end of a window is not known; the transfer ends below 4 GiB.
- WindowedMemory.ReadDataRegion: needs a buffer of whole blocks, because the last copy is a whole block.
- BeaconFilter.Beacon.RemoveCountry: needs a well-formed element list, as mac80211 builds it; filling the rest of the descriptor is not modelled.
- FirmwareLoader.Adapter.AutoFwUpgrade: the content must hold its start address, which the code reads without a check.
- FirmwareLoader.Adapter.SecureFirmwareLoad: the memory behind the image must reach as far as the code reads; for size 0 that is 2^32 blocks. Only the outcome of the first and last commands is modelled.
- StationTable.Common.StaAdd: the bookkeeping of sequence numbers, WEP keys, and the separate slot of station mode are not modelled.
- VifAllocator.Adapter.AddInterface: P2P, monitor and change-interface paths do not maintain the bookkeeping and are excluded.
- SkbRing.Common.Enqueue: the copy and tagging of the frame before it is queued are not modelled.
- Netlink, sockets, ioctls, printing, debugfs, capability tables, 11k reports, descriptor filling and SDIO interrupt handling: input, output and field assignments.
- The Matlab block splitting of the tools, which is an easier form of the firmware chunking.
