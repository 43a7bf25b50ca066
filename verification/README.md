# OTBR Insight, verified

OTBR Insight watches a Thread border router: it reads the mesh from several
sources, draws it, keeps short histories of it, and can change the network the
border router runs. Most of the program moves data. This project models the parts
that compute something, in Dafny, and proves what they are for.

| files | what they model |
|---|---|
| `LittleEndian`, `TlvWire`, `TlvSpec`, `Tlv`, `TlvBytes` | The Matter TLV decoder. `TlvWire` is the wire grammar as a printer, `TlvSpec` proves the decoder function its exact inverse, and `Tlv` is the decoder with its index, its loops and the element it fills, proved equal to that function. `TlvBytes` says of every kind and tag form which bytes it is, without the grammar's tables. |
| `Certificates`, `CertificateBytes` | The writer of operational certificates, the reader of root certificates and the attribution of fabrics, over that codec. |
| `SignalSpec`, `Signal`, `SignalClock`, `SignalHistory`, `SignalReadout`, `SignalSeries`, `SignalPoints` | The signal trail: a store of minute buckets updated in place, which refines the unbounded log of readings; exactly what a clock that steps back does to it; what is read out of it, told from the log alone; and its reduction to a few points, told from their samples. |
| `Control`, `Late` | Control writes: concurrent callers, one mutex, requests that may fail with or without effect, as a state machine; and the three operations themselves. `Late` lets failed requests act after their callers have gone on. |
| `Hex`, `Backups` | The saved dataset on disk and in memory, and the handlers that take it before each destructive change. |
| `Packing`, `PackingShape` | The integer arithmetic that places the cards of the topology map. |
| `RouterLinks`, `Topology`, `LinkMetrics`, `TopologyNodes` | The topology built from OTBR's diagnostics; the metrics of its links and the fields of its nodes told from the records. |
| `Mesh` | The topology read from the running mesh. |
| `Rloc`, `Parents` | Routing locators: printed, read back, and used to find a child's parent, by the MCP tools and by the dashboard. |
| `Text`, `TextFacts`, `Sorting`, `Identities`, `Fabrics` | The hexadecimal identities of Matter and the grouping of nodes into fabrics. |
| `Mdns` | The collector of mDNS records. |
| `Cli` | The reply framing of the daemon's command line and the reading of its tables. |
| `Report`, `ReportEntries` | The report of a diagnostics export. |

Objects the program updates in place are classes with a `Valid()` predicate and a
ghost log or value; loops are loops. Everything that only computes is a function.
Each method is tied to a specification function or a predicate, and the theorems
are about those.

## What the proofs found

- `TlvParse` accepts an unterminated container at the end of the buffer and ignores
  everything after a stray end byte, and `TlvDocument` looks neither at the outer tag
  nor at what follows: `Tlv.DocumentAccepts` says exactly what is accepted.
- A certificate whose subject number itself carries tag 21 is read with that number
  as its fabric ID, because the first field wins (`Certificates.CertificateReadsBack`).
- A clock that steps back to an earlier minute can make the trail misfile readings
  (`SignalClock.BackwardClockMisfiles`) or lack a bucket for one
  (`SignalClock.BackwardClockForgets`, a device without RSSI). On any clock and for any
  rows, the trails stay summaries of their logs exactly when every recording suits every
  device it takes (`SignalClock.RunTracksIff`). A device with a trail: the trail does not
  end after the recording's minute, or its rows all lack an RSSI, leave the last bucket
  and that of their minute as they are, and their minute is in the trail or out of its
  window. A device without one: what is logged of it in the window is all of that
  minute, without RSSI, and of link quality 0 or none unless the new rows name one. Minutes that
  never go back always suit (`SignalClock.GoodClockSuits`). The size bounds hold on any
  clock (`SignalSpec.RunBounded`).
- The mean of a reduced group subtracts a half and truncates, which suits negative
  readings. For positive ones it can fall below the group's least reading
  (`SignalSeries.PositiveReadingFallsBelow`: a single reading of +5 dBm has the mean 4);
  `SignalSeries.GroupMeanBetween` gives the exact condition.
- A restore that fails after its own backup, and a join whose dataset is refused,
  have already replaced the restore point (`Backups.Server.Restore`,
  `Backups.Server.JoinTlv`).
- After a commit that fails the interface is up exactly when the enable took effect and
  only its answer was lost, or when the first disable had no effect and the interface was
  up (`Control.CommitAlone`).
- The collector is confluent if and only if no instance is told two places or two
  sets of attributes (`Mdns.ConfluentIffSettled`; `Mdns.OrderShows` is a log that is not).
- Datasets are written with the interface down as long as no failed request acts late. When
  some may, a write meets an interface that is up exactly when the last switching request
  to land since the caller's own disable is an enable (`Late.EnabledBeforeWriteIff`). This
  cannot happen among given calls if and only if none enables the interface while another
  one writes (`Late.AlwaysDownIff`).
- Of repeated TXT keys the last one wins, where section 6.4 of RFC 6763 keeps the first
  (`Mdns.RepeatedKeyLosesFirst`), and spellings of one key that differ in case are kept
  apart, where it ignores case (`Mdns.SpellingsAreKept`). The attributes are what that
  section makes of the entries if and only if no key is spelled in two ways and the first
  and last entries of every key carry the same value (`Mdns.ReadAsStandardIff`).
- The MCP tools do not always find the parent the dashboard shows, though their comment
  says so. They miss a parent given as the ID of a router that reports no ID
  (`Parents.NumberIsMissed`), and spellings that differ in punctuation
  (`Parents.ColonIsMissed`). On texts of letters and digits `Parents.ParentsAgreeIff` is
  the exact condition.

## Model

| member | source | states |
|---|---|---|
| LittleEndian.ReadBack | internal/matter/tlv.go:118-147 | A number written in its width is read back, for every width the format uses |
| LittleEndian.WriteBack | internal/matter/tlv.go:118-147 | Bytes read as a number and written again are the same bytes, so no two byte strings of a width mean the same number |
| TlvSpec.ForestRoundTrip | internal/matter/tlv.go:65-186 | Decoding undoes encoding for every forest of the 24 kinds, at any depth and with any bytes after the end byte; a forest nested too deep is refused as too deep and for no other reason |
| TlvSpec.ForestReencodes | internal/matter/tlv.go:65-186 | Encoding undoes decoding: whatever is accepted is one printed forest followed by exactly the unread bytes, within the depth limit, and an end byte is missing only when the buffer ran out |
| TlvSpec.DecodesExactlyThePrinted | internal/matter/tlv.go:65-186 | The decoder gives an outcome if and only if the buffer is that outcome printed |
| TlvSpec.TagRoundTrip | internal/matter/tlv.go:76-96 | Every tag form, 0 to 8 bytes wide, is read back with the bytes behind it untouched |
| TlvSpec.ValueRoundTrip | internal/matter/tlv.go:106-159 | Each kind of value is read back, containers with all their children |
| TlvSpec.RebuildMeanings | internal/matter/tlv.go:53-61 | On closed containers with anonymous or context tags the reported elements determine their wire form |
| TlvSpec.PlainBytesFromElements | internal/matter/tlv.go:65-186 | On that fragment the elements alone, printed again, are exactly the bytes consumed: no loss and no ambiguity |
| Tlv.TlvParse | internal/matter/tlv.go:65-104 | The loop agrees with the decoder function on every buffer, index and depth, and the offset it returns is inside the buffer |
| Tlv.ReadTag | internal/matter/tlv.go:76-96 | A one-byte tag is kept, wide forms are skipped over and leave the element untagged |
| Tlv.TlvValue | internal/matter/tlv.go:106-159 | Fills the element with exactly the value the grammar puts there and returns the offset past it, or the error of the decoder function |
| Tlv.TlvNumber | internal/matter/tlv.go:118-147 | The fixed-width little-endian kinds, refused when the buffer is short |
| Tlv.TlvBlob | internal/matter/tlv.go:164-186 | A length-prefixed string is the very subrange of the buffer its length announces, and refused when that is longer than the buffer |
| Tlv.TlvLength | internal/matter/tlv.go:169-172 | The loop from the last byte down gives the little-endian number, and 64 bits always hold it |
| Tlv.TlvField | internal/matter/tlv.go:189-196 | Finds the first element with the context tag, and none if and only if there is none |
| Tlv.TlvDocument | internal/matter/tlv.go:200-209 | Returns the children of the one top-level container, or why there is none |
| Tlv.DocumentAccepts | internal/matter/tlv.go:200-209 | A document is accepted if and only if the buffer starts with one printed container holding something, and then ends or goes on with an end byte |
| TlvBytes.OneByteKinds | internal/matter/tlv.go:114-120 | An 8-bit integer is its one byte, for any byte and whatever follows its end byte |
| TlvBytes.TwoByteKinds | internal/matter/tlv.go:121-127 | A 16-bit integer is two bytes, the low one first |
| TlvBytes.FourByteKinds | internal/matter/tlv.go:128-134 | A 32-bit integer or float is four bytes, the low one first |
| TlvBytes.EightByteKinds | internal/matter/tlv.go:135-141 | A 64-bit integer or double is eight |
| TlvBytes.NoByteKinds | internal/matter/tlv.go:142-146 | False, true and null take none; true is 1 |
| TlvBytes.OneByteLengths | internal/matter/tlv.go:164-186 | Kinds 0x0c and 0x10 have one byte of length, and the element holds that many bytes as text or as bytes |
| TlvBytes.TwoByteLengths | internal/matter/tlv.go:164-186 | Kinds 0x0d and 0x11 have two |
| TlvBytes.FourByteLengths | internal/matter/tlv.go:164-186 | Kinds 0x0e and 0x12 have four |
| TlvBytes.EightByteLengths | internal/matter/tlv.go:164-186 | Kinds 0x0f and 0x13 have eight |
| TlvBytes.TagForms | internal/matter/tlv.go:76-96 | The eight tag forms take 0, 1, 2, 4, 2, 4, 6 and 8 bytes; only the one-byte tag is kept |
| TlvBytes.ContainerKinds | internal/matter/tlv.go:149-155 | Kinds 0x15 to 0x17 hold what stands before their end byte |
| TlvBytes.OtherKinds | internal/matter/tlv.go:156-158 | Every other kind is refused, a tagged end byte among them |
| TlvBytes.CutShort | internal/matter/tlv.go:94-112 | A tag, a number or a length the buffer is too short for is refused as truncated |
| TlvBytes.StringCutShort | internal/matter/tlv.go:176-178 | So is a string shorter than announced |
| TlvBytes.DepthLimit | internal/matter/tlv.go:66-68 | Sixteen containers may be open at once, and no more |
| Certificates.TlvCertificate | tools/screenshots/sanitise.py:36-71 | The bytes appended step by step are the certificate's wire form printed |
| Certificates.Writer.WriteSubject | tools/screenshots/sanitise.py:64-68 | The hand-written subject list is the list of its one or two numbers printed |
| Certificates.WrittenForest | tools/screenshots/sanitise.py:43-70 | Elements appended one after another and an end byte are a container's body printed |
| Certificates.CertificateIsADocument | internal/matter/diagnostics.go:217-220 | Every written certificate is accepted as a document with exactly its five fields |
| CertificateBytes.CertificateIs | tools/screenshots/sanitise.py:36-71 | A certificate from its first byte to its last: control bytes, tags, dates, subject and key |
| CertificateBytes.RootOfIs | internal/matter/diagnostics.go:212-232 | For any entry: no root unless it is a document with a non-empty first field 9; the fabric is the first number tagged 21 in the first field tagged 6 |
| CertificateBytes.RootsAround | internal/matter/diagnostics.go:212-232 | An entry adds its root, if it gives one, and leaves those before and behind it alone |
| CertificateBytes.EvidenceIs | internal/matter/diagnostics.go:130-158 | A root's own fabric goes before the controller's, the controller's counts for its own key only, and the key must be an uncompressed point |
| CertificateBytes.EvidenceAround | internal/matter/diagnostics.go:130-158 | A root adds its evidence, if any, and leaves the rest alone |
| Certificates.CertificateReadsBack | internal/matter/diagnostics.go:206-234 | Every written certificate reads back with its key, and with the fabric ID of its subject when it names one |
| Certificates.DecodeRootCertificates | internal/matter/diagnostics.go:206-234 | Unreadable entries are skipped and every other one gives one root, in order |
| Certificates.Attribute | internal/matter/diagnostics.go:106-171 | Every root is listed with its fabric or counted as unattributed, never both; nothing is unattributed if and only if every root names or inherits a fabric and has an uncompressed key |
| Certificates.WrittenCertificatesAreAttributed | internal/matter/diagnostics.go:106-171 | From the writer to the evidence, for any list of written certificates: each gives evidence if and only if its subject names a fabric or its key is the controller's own, of that fabric, in order and whatever the others are |
| Signal.SignalTrail.Record | internal/service/signal.go:67-104 | One recording moves the stored trails exactly as the value-level step does and logs exactly the accepted readings; trails of different devices never share an object |
| Signal.SignalTrail.RecordDevice | internal/service/signal.go:76-92 | One row: refused without a name or a free slot, otherwise its trail moves on and takes the reading |
| Signal.SignalTrail.SettleAll | internal/service/signal.go:93-103 | Whatever order the map gives: absent devices move on too and are dropped once nothing in their trail is present |
| Signal.DeviceTrail.Advance | internal/service/signal.go:107-128 | The in-place growth and trimming is the value-level advance |
| Signal.DeviceTrail.Add | internal/service/signal.go:130-149 | Only the newest bucket changes |
| Signal.DeviceTrail.IsEmpty | internal/service/signal.go:151-158 | Empty if and only if no bucket is present |
| SignalSpec.AdvanceTracks | internal/service/signal.go:107-128 | Moving a trail on keeps it a true summary of the log and brings it to the current minute |
| SignalSpec.AddTracks | internal/service/signal.go:130-149 | Adding a reading to the newest bucket is appending it to the log |
| SignalSpec.AddSummarises | internal/service/signal.go:130-149 | Count, sum, least, greatest, last quality and presence stay those of the minute's readings |
| SignalSpec.RecordRefines | internal/service/signal.go:67-104 | One recording keeps every stored trail a summary of the log: 1 to 120 consecutive minutes ending now, every bucket the fold of its minute, at most 256 trails, each with something present |
| SignalSpec.RunRefines | internal/service/signal.go:67-158 | So after any run whose minutes never go back, whatever the clock does within a minute |
| Signal.Replay | internal/service/signal.go:67-158 | A store driven through any run holds what the run leaves, and so is a summary of its log when the minutes never go back |
| SignalSpec.StoredIffInWindow | internal/service/signal.go:82-103 | A device has a trail if and only if the log accepted a reading of it in the last 120 minutes |
| SignalSpec.RunBounded | internal/service/signal.go:67-128 | Whatever the clock does: at most 256 trails of one to 120 consecutive minutes, none of them empty |
| SignalClock.FiledIff | internal/service/signal.go:107-149 | On any clock, for any readings of one device: its trail stays a true summary reaching back through the window if and only if it does not end after their minute, or they go unnoticed |
| SignalClock.MeasuredIsFiledIff | internal/service/signal.go:107-149 | For a reading with an RSSI: if and only if the trail does not end after its minute |
| SignalClock.UnmeasuredIsFiledIff | internal/service/signal.go:107-149 | For one without: the same, or it agrees with the last bucket, and with that of its own minute unless that lies before the trail and out of the window |
| SignalClock.RecordTracksIff | internal/service/signal.go:67-104 | A whole recording, any rows: every trail stays a summary if and only if each accepted device's trail ends in time or does not notice, and each one without a trail may be given one |
| SignalClock.StepBackIff | internal/service/signal.go:67-104 | The same at the first step back to an earlier minute |
| SignalClock.RunTracksIff | internal/service/signal.go:67-104 | Over any run on any clock: right after every recording if and only if every recording met that condition |
| SignalClock.GoodClockSuits | internal/service/signal.go:67-104 | Minutes that never go back always meet it |
| SignalClock.BackwardClockMisfiles | internal/service/signal.go:112-115 | One device with an RSSI recorded at minute 10 and at minute 5: no summary any more |
| SignalClock.BackwardClockForgets | internal/service/signal.go:112-138 | The same without an RSSI: every bucket is right, but the log has a reading before the first one |
| Signal.History | internal/service/signal.go:162-215 | The history loop gives the value-level history of the trimmed, lower-cased address; an unknown device has an empty one |
| SignalHistory.HistoryIsTheWindow | internal/service/signal.go:162-215 | Mean, least and greatest are those of every reading the log accepted in the last 120 minutes, and absent exactly when there is none |
| SignalHistory.WindowMeanBetween | internal/service/signal.go:53-58 | The rounded mean of the window lies between its extremes, whatever the signs |
| SignalHistory.MinuteMeanBetween | internal/service/signal.go:187-195 | So does the mean of every minute |
| SignalReadout.MinuteIs | internal/service/signal.go:67-72 | A time belongs to the whole minute it falls into |
| SignalReadout.LimitsAre | internal/service/signal.go:82-128 | After any run on any clock: 256 devices at most, each with 1 to 120 consecutive minutes |
| SignalReadout.RoundIsNearest | internal/service/signal.go:53-58 | The rounded quotient is the nearest integer, and of two equally near the one farther from zero, in whole numbers |
| SignalReadout.NearestIsUnique | internal/service/signal.go:53-58 | There is one such integer |
| SignalReadout.SamplesFromLog | internal/service/signal.go:182-204 | Every sample, from the log alone: its minute, whether anything was seen, how many readings, their nearest mean, least, greatest and last link quality |
| SignalReadout.WindowFromLog | internal/service/signal.go:180-209 | The mean of the window is the nearest to that of all its readings; its extremes are theirs |
| SignalReadout.PresenceFromLog | internal/service/signal.go:180-213 | The time covered, and the whole per cent of its minutes that have a reading |
| SignalHistory.RoundedBetween | internal/service/signal.go:53-58 | A rounded mean stays between integers the exact one lies between |
| SignalSeries.ReduceSignal | internal/mcpserver/server.go:772-807 | The groups are those of the computed size, the points are theirs, and no absent extreme is dereferenced |
| SignalSeries.OnePoint | internal/mcpserver/server.go:780-804 | The inner loop's point is that of its group |
| SignalSeries.GroupsPartition | internal/mcpserver/server.go:778-780 | The groups put together are the samples, each once and in order |
| SignalSeries.AtMostPoints | internal/mcpserver/server.go:773-778 | There are never more groups than points asked for |
| SignalPoints.PointsFromSamples | internal/mcpserver/server.go:772-807 | Each point, from its samples: its first minute, the whole per cent present, the least and greatest reading, and the weighted mean less a half without its fraction; the groups have one size, the least that will do |
| SignalPoints.MeanIsHalfLess | internal/mcpserver/server.go:799-802 | The rounding of that mean, in whole numbers, for either sign |
| SignalSeries.DipSurvives | internal/mcpserver/server.go:770-807 | From the log to the series: least and greatest of the reduced points are those of all accepted readings in the window, for any number of points |
| SignalSeries.GroupMeanBetween | internal/mcpserver/server.go:799-802 | A group's mean never exceeds its greatest reading, and is not below its least one if and only if that is not positive or the exact mean is at least half above it |
| SignalSeries.PositiveReadingFallsBelow | internal/mcpserver/server.go:799-802 | Recorded and reduced, one reading of +5 dBm becomes a point of mean 4 and least value 5 |
| SignalSeries.NonPositiveMeanBetween | internal/mcpserver/server.go:799-802 | For non-positive readings it lies between both |
| SignalSeries.PointMeansInside | internal/mcpserver/server.go:772-807 | From the log to the series, every point's mean lies between that point's own extremes when the readings are not positive |
| Control.RunsAreSerialized | internal/otbr/network.go:216-368 | In every state of every run the requests OTBR saw are the callers' blocks one after another in lock order, each a prefix of its script, every dataset write arrived while the interface was down, and the router is what the calls one by one leave |
| Control.StepSerialized | internal/otbr/network.go:216-368 | Every step of every caller keeps that |
| Control.DisabledBeforeWrite | internal/otbr/network.go:355-361 | When a caller is about to write the dataset the interface is down, whatever the other callers did before |
| Control.NoDeadlock | internal/otbr/client.go:57-60 | Until every call has finished some caller can move |
| Control.CommitAlone | internal/otbr/network.go:355-368 | A successful commit leaves its dataset up. After a failed one the interface is up if and only if the enable took effect and only its answer was lost, or the first disable had no effect and the interface was up; the dataset is the new one exactly when its write took effect |
| Control.LeaveAlone | internal/otbr/network.go:316-326 | A successful leave leaves no dataset and the interface down; the interface is up if and only if the disable failed without effect and it was up, and the dataset is gone exactly when its deletion took effect |
| Late.EnabledBeforeWriteIff | internal/otbr/network.go:316-368 | When failed requests may act at any later moment: a caller about to write the dataset meets an interface that is up if and only if the last late switch to land since its own disable is an enable |
| Late.AlwaysDownIff | internal/otbr/network.go:216-368 | For given calls: no run of any schedule, failures and late effects writes with the interface up if and only if no call enables it while another one writes |
| Late.RunsKeep | internal/otbr/network.go:216-368 | In every state of every such run the lock order holds, strays come from calls they ended, and the interface is where the landed ones leave it |
| Control.LastSuccessDecides | internal/otbr/network.go:216-368 | Under any concurrency, the last call through the lock decides when it succeeds |
| Control.ApplyDatasetRaw | internal/otbr/network.go:355-368 | The three requests in order, stopping at the first failure, with the effect and the log that gives |
| Control.LeaveNetwork | internal/otbr/network.go:316-326 | The same for disabling and clearing |
| Control.SetInterface | internal/otbr/network.go:216-234 | The same for one change of state |
| Hex.DecodeEncode | internal/otbr/network.go:108-110 | Hexadecimal text is read back as the bytes it was written from |
| Backups.Store.Load | internal/backup/store.go:56-78 | After a start memory holds what the file does; a missing or blank file is no error, an unreadable one is |
| Backups.Store.Persist | internal/backup/store.go:120-147 | The file is replaced whole or not at all |
| Backups.Store.Save | internal/backup/store.go:82-97 | Whether it works or not, memory and disk hold the same snapshot afterwards; a blank dataset or a disabled store changes nothing |
| Backups.RestartLoadsTheSame | internal/backup/store.go:56-97 | A new process loads exactly what the old one held |
| Backups.DatasetReadsBack | internal/otbr/network.go:94-112 | The text of a dataset is accepted as that dataset if and only if it has 1 to 512 bytes |
| Backups.BlanksAreIgnored | internal/otbr/network.go:94-112 | A blank or line break anywhere in a pasted dataset makes no difference |
| Backups.CapitalsAreIgnored | internal/otbr/network.go:94-112 | Neither do capitals, nor the prefix |
| Backups.Server.TakeSnapshot | internal/api/server.go:346-358 | The active dataset becomes the restore point exactly when the store works and there is one; otherwise the old restore point stays |
| Backups.Server.Replace | internal/api/server.go:398-440 | Forming and joining: when the request's fields are accepted exactly the commit's requests are sent, the router is what their outcomes leave, and the reply is that of the commit; a refused request has touched the restore point and nothing else |
| Backups.Server.JoinTlv | internal/api/server.go:441-456 | The same for a dataset given as text: its commit is sent if it is one, and it is refused otherwise |
| Backups.Server.LeaveAll | internal/api/server.go:472-481 | Leaving sends exactly the two requests and answers as they end; when it works nothing is up and the old dataset is the restore point |
| Backups.Server.Restore | internal/api/server.go:371-385 | With a dataset saved its commit is sent and the reply is that of the commit; when it works the active and the saved dataset are exchanged; with nothing saved nothing changes; a failed one has already replaced the restore point |
| Backups.Server.RestoreTwice | internal/api/server.go:371-385 | Two restores are the identity on both datasets when they work, which they do if and only if a dataset is saved and all six requests are answered well |
| Packing.RenderTopology | web/static/app.js:1735-1830 | For any routers with any numbers of children, any unresolved children and any width: every card has a place, no two overlap, all lie inside the stage, and children lie below their router; the places are those of the clusters packed turn by turn |
| Packing.Pack | web/static/app.js:1769-1819 | The packing loop keeps the layout invariant from the first cluster to the last |
| Packing.PackStep | web/static/app.js:1782-1819 | The loop body places, wraps or tucks exactly as the value-level step |
| Packing.PlacePacked | web/static/app.js:1797-1818 | Placing a cluster at the cursor keeps cards apart, inside the width and settled behind the cursor |
| Packing.TuckPacked | web/static/app.js:1783-1790 | Moving the host's router aside and seating a childless one beside it keeps the same, though a card already placed moves |
| Packing.NewBandPacked | web/static/app.js:1791-1796 | Wrapping to a new band puts every earlier card above it |
| Packing.KidInside | web/static/app.js:1806-1816 | A child stands inside its cluster's columns and rows, centred rows included |
| Packing.KidsDisjoint | web/static/app.js:1806-1816 | No two children of a cluster overlap |
| Packing.PlaceKids | web/static/app.js:1806-1816 | The loop over the children puts every one at its place and moves nothing else |
| Packing.TopologyGrid | web/static/app.js:1212-1222 | The grid has one place for every card, row by row |
| Packing.GridInside | web/static/app.js:1212-1222 | Every place of the grid lies between the margins and within its rows |
| Packing.GridDisjoint | web/static/app.js:1212-1222 | No two places of the grid overlap |
| Packing.StageApart | web/static/app.js:1820-1830 | Clusters and the grid of unresolved children together do not overlap |
| Packing.StageInside | web/static/app.js:1820-1830 | The computed height covers every card |
| Packing.MetricsFor | web/static/app.js:1691-1699 | Whatever was measured, a card fits between the margins and a column is wider than a card |
| PackingShape.ColumnsFit | web/static/app.js:1691-1699 | Width, margin and pitch by the measured width, and as many columns as fit between the margins |
| PackingShape.NaturalIsLeast | web/static/app.js:1744 | One row of up to four children, and beyond that the least square that holds them |
| PackingShape.NaturalWidthIs | web/static/app.js:1745-1748 | The natural width is that of all clusters side by side with their gaps |
| PackingShape.MaxColumns | web/static/app.js:1749-1757 | Clusters are squeezed only when they do not fit side by side and there are three columns, and then so that two fit into a band |
| PackingShape.ClusterShape | web/static/app.js:1758-1767 | A cluster has no more columns than allowed or natural, the rows its children need, and the size of both |
| PackingShape.LoneRouterIsTucked | web/static/app.js:1782-1790 | A lone router without room takes the next free slot of the host's row and opens no band |
| PackingShape.BandIsOpened | web/static/app.js:1791-1796 | Any other cluster without room opens a band below the last one |
| PackingShape.ClusterIsPlaced | web/static/app.js:1797-1818 | A cluster with room stands at the cursor, its router in the middle above it and its children in centred rows |
| PackingShape.GridPlace | web/static/app.js:1212-1222 | The places of the grid: rows centred on the map, not past the margin |
| RouterLinks.Latest | internal/otbr/client.go:956-984 | Per key the surviving record is the one created last, the first of those; records without a key are dropped |
| RouterLinks.Enumerate | internal/otbr/client.go:986-989 | Every survivor is listed once, in some order |
| RouterLinks.Builder.AddRouterLink | internal/otbr/client.go:1020-1060 | Merging in place: the pair has one link, with what its reports so far add up to (see MetricIsFirstReported), and the children's links do not change |
| RouterLinks.MetricIsFirstReported | internal/otbr/client.go:1020-1060 | Each metric of a pair is that of the first report of the pair, from whichever end, that brings it, and is missing if and only if none does |
| RouterLinks.BuilderIsExact | internal/otbr/client.go:1018-1060 | Router links are exactly the reported pairs: no self links, one per unordered pair, with the merged metrics |
| RouterLinks.NamedPeersAreLinked | internal/otbr/client.go:1062-1080 | Two IDs are linked if and only if a record of one lists a neighbour with the extended address of the other, or a route with its router ID, taken from the last record that has it |
| RouterLinks.AddressLeadsTo | internal/otbr/client.go:1011-1016 | An address leads to the last record with it, whatever the case of its letters |
| RouterLinks.NumberLeadsTo | internal/otbr/client.go:1011-1016 | A router ID leads to the last record with it |
| RouterLinks.LinksJoinListedRouters | internal/otbr/client.go:1062-1080 | Both ends of every router link are listed routers |
| LinkMetrics.LinkMetricsAreFirst | internal/otbr/client.go:1018-1080 | Told from the records alone: quality in, quality out and cost of a link are those of the first route of its pair that has one; margin, signal strengths and error rates those of the first neighbour entry |
| LinkMetrics.ChildMetrics | internal/otbr/client.go:1148-1158 | A child's link carries the margin, signal and frame errors of the child's first detail and nothing else |
| LinkMetrics.ChildWithoutDetail | internal/otbr/client.go:1148-1158 | Without a detail it carries none |
| RouterLinks.PairIsUnordered | internal/otbr/client.go:1024-1028 | Both directions of a link have the same key: the two ends, the lesser text first |
| Topology.DecodeTopology | internal/otbr/client.go:932-1163 | For some order of the surviving records, ascending by router ID when all have one: the nodes are the routers and then every router's children, the router links are exactly what the reports say, the child links exactly the children's |
| Topology.MergeChildren | internal/otbr/client.go:1089-1140 | The map filled in place holds, for each child ID of either table, the child as both tables describe it and its turn of first appearance |
| Topology.SortByOrder | internal/otbr/client.go:1141-1145 | Sorting by turn gives the IDs in first-appearance order |
| Topology.AddChildren | internal/otbr/client.go:1146-1160 | One node and one link per child, in that order |
| Topology.IdsAreTheNamedOnes | internal/otbr/client.go:1109-1140 | A child ID has a node if and only if one of the tables names it |
| Topology.IdsAreDistinct | internal/otbr/client.go:1091-1108 | No child ID has two nodes |
| TopologyNodes.RouterNodeIs | internal/otbr/client.go:1001-1010 | A router's node: its ID, locator, router ID and address, and nothing of a child's |
| TopologyNodes.BareChildIs | internal/otbr/client.go:1095-1108 | A child is named after its router and its child ID in decimal until a table says more |
| TopologyNodes.BareLocatorIs | internal/otbr/client.go:1095-1103 | Its locator is the sum of its router's and the child ID in 16 bits, if the router's can be read |
| TopologyNodes.ChildStays | internal/otbr/client.go:1089-1140 | Whatever the tables say, it stays a child of its router and carries the router's ID |
| Topology.QualityFromTable | internal/otbr/client.go:1109-1116 | A child's link quality is that of its last table entry, whatever the details say |
| Topology.IdentityFromDetails | internal/otbr/client.go:1117-1124 | A child's identity is the extended address of its last detail that has one, and the derived name without any |
| Topology.ChildrenInFirstOrder | internal/otbr/client.go:1089-1145 | Children stand in the order in which their IDs are first named, the table before the details |
| Topology.FieldFromDetails | internal/otbr/client.go:1125-1138 | Timeout and each mode flag are those of the child's last detail having one, and otherwise what the table left |
| Topology.FieldFromTable | internal/otbr/client.go:1109-1116 | What the table leaves is its last entry's, missing or not |
| Topology.LocatorFromDetails | internal/otbr/client.go:1089-1124 | The locator is that of the child's last detail having one, and otherwise the derived one |
| Topology.SortRecords | internal/otbr/client.go:986-996 | Sorting keeps every surviving record, puts them in ascending order of router ID when all have one, and lets no locator descend when none has |
| Topology.LinksPairWithNodes | internal/otbr/client.go:1146-1160 | Child links and child nodes pair up: each link runs from the child's listed parent to the child, with its quality |
| Mesh.RouterAdjacency | internal/otctl/mesh.go:109-140 | One link for every pair of different known routers one of which reports the other, taken as one of them reports it, and no other link |
| Mesh.LinkIsReported | internal/otctl/mesh.go:109-140 | Every link is reported by one end, from that end and with its quality; the ends are the last routers with the two IDs |
| Mesh.ReportedIsLinked | internal/otctl/mesh.go:109-140 | And whatever is reported between two named, different routers is linked |
| Mesh.ChildrenOf | internal/otctl/mesh.go:142-180 | The loops keep exactly the first sightings |
| Mesh.KeptOnce | internal/otctl/mesh.go:142-162 | No extended address is kept twice |
| Mesh.KeptAreFirst | internal/otctl/mesh.go:142-180 | What is kept is exactly the first sighting of every address, under the parent that listed it first, and every sighting without an address |
| Rloc.PrintedReadsBack | internal/otbr/client.go:1165-1175 | Every printed 16-bit locator is read back by all three readers, and the dashboard's mask gives its router ID |
| Rloc.DerivedLeadsBack | internal/otbr/client.go:1095-1103 | A child locator derived from a router's is read back, is no router's, and carries the router's ID |
| Rloc.DerivedIsSum | internal/otbr/client.go:1095-1103 | A derived locator reads back as the sum in 16 bits |
| Rloc.SpaceIsIgnored | internal/mcpserver/server.go:1269-1276 | White space around a locator and the case of its letters make no difference to any reader |
| Rloc.FrontIsRead | internal/otbr/client.go:1165-1175 | The topology builder reads the digits in front and ignores what follows |
| Rloc.FourDigitsAtMost | internal/mcpserver/server.go:1269-1276 | The other readers want one to four digits and nothing else |
| Rloc.IsRouterIff | internal/mcpserver/server.go:1259-1267 | A router by role, by flag, or by a locator without child bits |
| Rloc.IsReportedIff | internal/mcpserver/server.go:1288-1307 | A candidate is the reported parent if its ID, address or locator is spelled so, prefix and case aside, or its router ID is that decimal |
| Rloc.IsDerivedIff | internal/mcpserver/server.go:1308-1318 | And the derived one if its ID, or the upper bits of its locator without one, are the child's |
| Rloc.FindBest | internal/mcpserver/server.go:1293-1321 | The loop returns the first candidate that is the reported parent, and failing any the first derived one |
| Rloc.FindParent | internal/mcpserver/server.go:1287-1322 | So for a child among the inventory |
| Rloc.ChildFindsItsRouter | internal/mcpserver/server.go:1284-1322 | A child with a derived locator and no reported parent gets the router with that ID when IDs are unique |
| Parents.DirectIsReported | web/static/app.js:1172-1174 | On texts of letters and digits the dashboard and the tools compare alike |
| Parents.TopologyParentIs | web/static/app.js:1192-1207 | The dashboard's search, for any inventory: the first router reported in some spelling, failing any the first by its ID, failing any the first derived one |
| Parents.ParentsAgreeIff | web/static/app.js:1192-1207 | On such texts the tools find the dashboard's parent if and only if a router is reported in a spelling of its own, or no router has the parent's text as its ID, or the first that has is the one derived anyway |
| Parents.NumberIsMissed | web/static/app.js:1197-1200 | For every router ID: given as the parent of a router that reports no ID, the dashboard finds it and the tools do not |
| Parents.ColonIsMissed | web/static/app.js:1172-1174 | For every address split by a colon and reported without: the dashboard finds it and the tools do not |
| Identities.ShortIsFormatId | internal/matter/fabrics.go:150-153 | The short form of a 16-digit node is its number as diagnostics print it, and padding it gives the 16 capital digits back |
| Identities.IdentityReadsBack | internal/matter/fabrics.go:117-133 | A name built from two 16-digit fields is decoded to them, by the browse and by the registry alike |
| Identities.IdentityIff | internal/matter/fabrics.go:117-133 | Nothing but two 16-digit fields with a dash between them is read |
| Identities.IdentityTrims | internal/matter/fabrics.go:117-120 | White space around a browsed name is ignored |
| Identities.LessIsNumeric | internal/matter/fabrics.go:148-153 | For texts of one length in capitals comparing the text is comparing the number |
| Identities.NodeOrderIsNumeric | internal/matter/fabrics.go:150-153 | Node order sorts short forms by number, and equal short forms are equal numbers |
| Identities.TrimmedIsPrinted | internal/matter/diagnostics.go:349-351 | Dropping leading zeros leaves the number as it is printed |
| Fabrics.Group | internal/matter/fabrics.go:35-87 | Each decodable pair of fabric and node is grouped once, the first offer of it winning, the registry before the browse |
| Fabrics.RegistryOffer | internal/matter/fabrics.go:52-71 | What a registered service offers: fabric, node, host, port, address, and on the mesh; only operational services count |
| Fabrics.BrowseOffer | internal/matter/fabrics.go:72-87 | What a browsed instance offers: host, port and addresses as found, and on the mesh if a listed device has its host |
| Fabrics.HostIsThread | internal/matter/fabrics.go:137-146 | A host is a Thread device's if and only if it is 16 digits, alone or in the local domain |
| Fabrics.Fabrics | internal/matter/fabrics.go:34-112 | Every fabric anyone offers is listed once with exactly its winning nodes in strict order and true counts, whatever order the maps are walked in |
| Fabrics.FabricsAreDetermined | internal/matter/fabrics.go:88-111 | Two such answers for the same offers are equal: map order does not show |
| Fabrics.WinnersAreUnique | internal/matter/fabrics.go:38-43 | A node of a fabric is listed once |
| Fabrics.EveryOfferIsListed | internal/matter/fabrics.go:38-50 | Every decodable name's node is listed |
| Fabrics.RegistryWins | internal/matter/fabrics.go:51-87 | A node the registry offers is listed as the registry has it, whatever was browsed |
| Fabrics.MeshNodesLead | internal/matter/fabrics.go:90-102 | The mesh count is how many leading nodes are on the mesh, and none after them is |
| Fabrics.NodesAscendByNumber | internal/matter/fabrics.go:95 | Within either part nodes ascend by number, not by text |
| Fabrics.OffersAreShort | internal/matter/fabrics.go:148-153 | Every node ordered has at most 16 digits, so padding never panics |
| Sorting.AscendingIsUnique | internal/matter/fabrics.go:90-110 | Two strictly ascending sequences of the same entries are the same |
| Sorting.SortNeverDescends | internal/matter/report.go:179-180 | Sorting by a key that entries may share never leaves an entry before one it should follow |
| Sorting.SortIsStable | internal/matter/report.go:70-72 | Stable sorting by rank makes each rank one run and keeps the order inside it |
| TextFacts.TrimIs | internal/matter/fabrics.go:117-120 | Trimming takes away the white space around a text and nothing else |
| TextFacts.SplitIs | internal/matter/report.go:142-146 | Splitting is undone by joining, and no part holds the separator |
| TextFacts.ContainsIff | internal/mdns/browse.go:263-266 | A text contains what stands somewhere in it |
| TextFacts.LessIff | internal/mdns/browse.go:309 | Texts compare by their first difference |
| Mdns.Collector.Record | internal/mdns/browse.go:254-285 | One record moves every map and order list to what the longer log means |
| Mdns.Collector.Absorb | internal/mdns/browse.go:234-252 | A packet is its records one by one, so how records are split over packets does not matter; an unreadable one changes nothing |
| Mdns.Collector.AddAddress | internal/mdns/browse.go:287-295 | An address is added unless the host has it |
| Mdns.Collector.QueryNames | internal/mdns/browse.go:222-232 | At most 33 distinct names, the service first and then the subtypes in the order heard; fewer only when that is all of them |
| Mdns.Collector.Instances | internal/mdns/browse.go:297-323 | One instance for every name pointed at, each as the log describes it |
| Mdns.Collector.Join | internal/mdns/browse.go:300-321 | Host and port of the last SRV record, the sorted addresses of that host, the attributes of the last TXT record |
| Mdns.InstancePlace | internal/mdns/browse.go:300-310 | For any log: host in lower case and port of the last SRV record, and exactly that host's addresses; nothing without one |
| Mdns.InstanceText | internal/mdns/browse.go:311-321 | The attributes are the entries of the last TXT record, and missing when it has none |
| Mdns.InstanceLabel | internal/mdns/browse.go:300-304 | The name is the label in front of the service, in capitals |
| Mdns.EntryIsCut | internal/mdns/browse.go:313-315 | A text entry is cut at its first equals sign; one without is all key |
| Mdns.LastEntryWins | internal/mdns/browse.go:311-319 | Of several entries with one key the last one counts |
| Mdns.FirstEntryKeptIff | internal/mdns/browse.go:311-319 | The value of a key's first entry is kept if and only if its last entry has the same value |
| Mdns.RepeatedKeyLosesFirst | internal/mdns/browse.go:311-319 | The entries a=1 and a=2 leave a with 2 |
| Mdns.ReadAsStandardIff | internal/mdns/browse.go:311-319 | The attributes are what section 6.4 of RFC 6763 makes of the entries if and only if no key is spelled in two ways and the first and last entries of every key carry the same value |
| Mdns.SpellingsAreKept | internal/mdns/browse.go:311-319 | The entries a=1 and A=2 leave two attributes |
| Mdns.TargetsAreDistinct | internal/mdns/browse.go:257-276 | The order lists hold exactly the names pointed at, each once, never the service itself |
| Mdns.SubtypesAreNotInstances | internal/mdns/browse.go:266-276 | No name is an instance and a subtype |
| Mdns.AddressesAscend | internal/mdns/browse.go:306-310 | An instance's addresses are exactly those its host answered with, strictly ascending |
| Mdns.SettledIsConfluent | internal/mdns/browse.go:194-323 | Without conflicting records the same instances are listed under any order, repetition and split |
| Mdns.ConfluentIffSettled | internal/mdns/browse.go:194-323 | And exactly then |
| Mdns.OrderShows | internal/mdns/browse.go:254-323 | One name and two SRV records of it: the same records in another order list another instance |
| Cli.Execute | internal/otctl/client.go:98-168 | For any lines, told by their text: a blank command or one of several lines is refused; the first line that says "Done" or begins with "Error ", echoes of the command aside, decides between the output before it and that error, unless 2048 lines came first; without one the reply was closed |
| Cli.ReadReply | internal/otctl/client.go:133-167 | The same for the reading loop alone |
| Cli.CleanStrips | internal/otctl/client.go:133-142 | Cleaning a line takes away any number of prompts, one more bracket and carriage returns, and nothing else |
| Cli.ReplyIsDetermined | internal/otctl/client.go:133-167 | A reply has one reading |
| Cli.PipeTable | internal/otctl/scan.go:146-170 | The first row names the columns, every later row is keyed by it, and rules and other output are skipped |
| Cli.RowReadsBack | internal/otctl/scan.go:172-186 | A printed row is read back cell by cell, unless all of it is rule characters |
| Cli.RowIff | internal/otctl/scan.go:172-186 | A line is a row if and only if it begins with a pipe and is not made of rule characters with a corner or dash among them |
| Cli.KeyedFindsCells | internal/otctl/scan.go:161-167 | With distinct columns every cell is found under its own and nothing else is |
| Cli.TranscriptReplies | internal/otctl/client.go:133-167 | From prompt and echo, through carriage returns, the table comes out of the reply as it was printed |
| Cli.ReadTable | internal/otctl/energy.go:29-34 | Command, reply and table together: any printed table arrives as its rows, in order, keyed by its lower-cased headers |
| Report.Report | internal/matter/report.go:44-74 | Every path has exactly its entries in exactly one section, with what it should show; each band is one run |
| Report.OnlyEmptiesAreDropped | internal/matter/report.go:22-26 | A three-part path is missing if and only if a heading lists it and it renders to nothing, or it is a table without rows |
| ReportEntries.PathParts | internal/matter/report.go:142-146 | Endpoint, cluster and attribute of a path |
| ReportEntries.ThreePartIff | internal/matter/report.go:142-146 | And nothing else has three parts |
| ReportEntries.SpecEntryIs | internal/matter/report.go:48-60 | A path under a heading shows its name and value, unless the value is empty |
| ReportEntries.TableEntriesAre | internal/matter/report_tables.go:635-784 | A table shows one entry for every row, in order |
| ReportEntries.RestEntryIs | internal/matter/report.go:146-156 | Any other path: an empty value is called so, and bookkeeping is named after its cluster as well |
| ReportEntries.RestGoes | internal/matter/report.go:151-190 | Where it goes: with the metadata, or to its cluster, and past the root endpoint to a band of its own |
| ReportEntries.BandOrder | internal/matter/report.go:78-90 | The order of the bands, an unknown one behind all others |
| Report.RemainingSections | internal/matter/report.go:134-190 | What nothing claimed has its one entry in its cluster's section or with the metadata, whatever order the map gives; the clusters ascend by title, their entries by number, and the metadata comes last, by name |
| Report.ReadSpecs | internal/matter/report.go:45-64 | The sections by heading, and the paths they use up, rendered or not |
| Report.ReadTables | internal/matter/report_tables.go:635-784 | The table sections, and the paths they use up even when the table is empty |
| Report.BandsAreRuns | internal/matter/report.go:67-72 | Each band is one contiguous run, its sections in the order they were made |
| Report.PlacedInOrder | internal/matter/report.go:67-72 | Sorting the sections changes nothing about where a path is |

## Left out

- Tlv.TlvParse: offsets are unbounded integers; the code compares the announced length with what is left before adding, so a 32-bit overflow has no counterpart here.
- Certificates.TlvCertificate: the value is the certificate's bytes; the base64 text the script returns for them is not modelled.
- Certificates.DecodeRootCertificates: base64 and JSON are opaque (an entry is bytes or nothing), and keys stay bytes rather than hexadecimal text.
- Certificates.Attribute: the HKDF hash is a parameter, and its error other than a malformed key has no counterpart; the labels, vendor and node of the controller's own fabric and the final sort of the list are left out.
- SignalHistory.WindowMeanBetween: means are exact rationals; the rounding of binary floating point is not modelled.
- SignalSeries.GroupMeanBetween: the same.
- Signal.SignalTrail.Record: the mutex is the atomicity of the method, a nil receiver has no counterpart, and a time is the number of its nanosecond.
- SignalSpec.RunRefines: needs minutes that never go back; SignalClock.RunTracksIff says exactly when the summaries survive any clock.
- Control.RunsAreSerialized: a request that failed has its effect before the reply or never; Late says what later effects do to dataset writes. Other clients of the router are not modelled.
- Backups.Server.Restore: handlers run one at a time. The code takes the backup outside the mutex, so two handlers at once may save each other's state.
- Backups.Server.RestoreTwice: the router gives the dataset as lower-case hexadecimal text of the bytes it holds; quotes around it are not modelled.
- Backups.Store.Persist: the temporary file's steps are one step that fails or works; a file left behind is not modelled.
- Packing.RenderTopology: cards are named by index, so two devices with one ID, which the page would draw at one place, have no counterpart. Drawing, labels and edges are left out.
- Topology.DecodeTopology: the order of the surviving records is left open when some router ID is missing, because the comparator is then no order, and among equal IDs; the direction of in and out quality is that of the first report. Items that are not JSON are skipped before the model starts.
- Rloc.PrintedReadsBack: signs and prefixes that `Sscanf` would accept are not modelled.
- Rloc.FindParent: the role text is a flag, and text compares without regard to case for ASCII only.
- Parents.ParentsAgreeIff: both search one inventory in one order, as the dashboard's device table does; its map puts the border router and the leader first.
- Mesh.RouterAdjacency: the metrics the local node adds to a link and the device rows are left out.
- Mesh.ChildrenOf: each kept sighting stands for the node, the device and the link made of it.
- Fabrics.Fabrics: `sort.SliceStable` is a stable insertion sort, and the key joining fabric and node is a pair.
- Mdns.Collector.Absorb: parsing a packet is opaque; addresses are the text they print as.
- Cli.Execute: a socket that cannot be opened, a write that fails and the deadline have no counterpart.
- Cli.ReadReply: what the lines are is a parameter of the loop, given by RolesIn; splitting the stream into lines, their size limit, and the deadline are left out.
- Cli.ReadTable: turning the rows into networks or channel readings and sorting those is left out; the command does not begin like a prompt or a table, which no command of the program does.
- Report.Report: the tables of clusters, attributes and renderers are parameters with no path listed twice; entries whose sort keys are equal stand in one of the orders the code may give.
- Text: letters and white space outside ASCII have no case and are not trimmed.
- HTTP, sockets, JSON, files beyond the last renamed content, logging, flags and configuration.
- The page's drawing, charts and polling; the tool texts, channel summaries and name tables.
- Name store, configuration checks, energy-scan medians, the merging of border routers and the formatting of units would only add easy members.
