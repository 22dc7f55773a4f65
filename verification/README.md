# Motion tracking on the Raspberry Pi: models and proofs

The repository is a motion-tracking pipeline (blur, background subtraction, blob detection) together with the camera
library and the media components it is built on. This project models the parts of it that carry state, arithmetic or
concurrency, and proves what they are for.

| files | part of the program |
|---|---|
| `PixelGrid`, `BlobStats`, `BlobScan`, `BlobBound`, `BlobLinks`, `BlobComplete`, `BlobMerge`, `BlobDetect`, `BlobIncomplete`, `BlobOverrun`, `BlobRoom`, `BlobForks` | blob detection: raster labelling, label table, redirect pass, statistics, relabelling |
| `GrabHandshake`, `CameraPool`, `CameraBurst` | the camera callback, the grabbing threads, and the circulation of buffer headers |
| `CInt`, `Mmal`, `ClockFilter`, `ClockStream`, `ClockControl`, `ClockSamples`, `ClockTiming`, `ClockRuns`, `ClockComponent`, `ClockEvents` | C arithmetic and shared values; the clock component: moving averages, streams, control loop, what both mean in terms of the time stamps and settings, whole runs, event slots |
| `ContainerWriter`, `WriterOrder` | the container writer: choosing ports by time stamp, keeping frames together, the order of what is written |
| `StillCapture` | the byte collector of the still camera |
| `AudioRender` | the audio renderer's byte pump |
| `Passthrough`, `PassthroughOrder` | the passthrough component's pairing of buffers |
| `AudioSlicer` | the audio decoder's output slices |
| `Workers`, `BgSub`, `Blur`, `BlurImpulse`, `BlurParallel` | background subtraction and blur, sequential and parallel |

Code that changes state in place is modelled by methods on arrays and classes. Each such method is proved against a
specification function on values (`ScanTo`, `Process`, `Adjusted`, `Fill`, `Step`, `SendAll`, ...), and the results over
all inputs, runs and schedules are lemmas about those functions; what a function computes is also stated without it, on
the pixels, time stamps, weights and fields that come in. Foreign calls (camera, container, codec, audio track,
event buffers) appear as parameters or as parts of an event, so that every answer they can give is covered.

## Where the code departs from its comments or its evident purpose

* `blob_detect.cpp:102-106` says the table is updated "in case we just joined two blobs", and line 122 that blobs which
  touch are merged. The assignment overwrites an earlier link, so two touching labels can stay apart
  (`BlobIncomplete.ArmsKeepDifferentLabels`). Soundness holds for every image; completeness holds exactly when the final
  table rejoins the links that were lost (`BlobComplete.CompleteIff`), in particular on every image
  without forks that needs fewer than 255 labels (`BlobForks.ForklessIsComplete`).
* `blob_detect.cpp:41-42` leaves a better size of the label table to be done: a size suffices exactly when it exceeds the
  number of labels that the image asks for, if it asks for any, within the 16 bits of a label (`BlobRoom.SufficesIff`). A
  quarter of the pixels is enough for every image with fewer than 255 active pixels that have no active earlier
  neighbour (`BlobRoom.FewLabelsSuffice`, `BlobRoom.NeededIsLonely`), and too little for some others
  (`BlobOverrun.FullRowOverruns`).
* `clock.c:521` divides by the attack period, which a new component has at 0 (`clock.c:880-881`). Without a latency event
  the third frame time of a port divides by zero (`ClockRuns.DefaultConfigurationFaults`).
* `clock.c:599` and `clock.c:781` divide by the parts of the frame rate, and the filters are as long as two seconds of
  frames are many: at less than one frame in two seconds `clock.c:457` divides by their length 0
  (`ClockRuns.SlowRateFaults`), and from 90.5 frames a second on `clock.c:225` writes outside of them at the 181st sample
  (`ClockFilter.FilterRefinesWindow`). These and the attack period are all the faults (`ClockRuns.FaultIff`), and none
  happens with rates in between and attack periods that are not 0 (`ClockRuns.SafeRunsGoOn`).
* `clock.c:681-685` refuses an event when all slots are taken, and then nobody gives its buffer header back
  (`ClockEvents.EventQueue.Enqueue`).
* `clock.c:182-190` does not saturate the sum of two least integers: the wrapped sum is 0 and the test is for a positive
  one (`ClockFilter.SaturateAddMeaning`; the overflowing addition is taken to wrap around).
* `avcodec_audio_decoder.c:344-347` counts a slice's own samples before computing its time stamp, so that every slice but
  the first of a timed block is stamped with its end (`AudioSlicer.LaterStampsAreLate`). A block ends exactly
  when it is a whole number of frames (`AudioSlicer.BlockEndsIff`); a remainder uses up every buffer that comes
  (`AudioSlicer.RemainderUsesUpBuffers`).
* `private_still_impl.cpp:72-106` forgets the waiting caller once the array is found too small: whether `takePicture`
  returns depends on how the stream is cut into buffers unless the stream fits (`StillCapture.LateEndIsNotSeen`,
  `StillCapture.EveryCutWakesIff`).
* `passthrough.c:157-167` puts a failed pair back at the tail of both queues; if the failure cannot be reported the
  component goes on with the pairing out of order (`Passthrough.UnreportedFailureReorders`); the pairing is in order exactly
  when no later send replicates before the component stops (`PassthroughOrder.InOrderIffCalls`).
* `private_impl.cpp:133-138` reports that a fetch found no header but sends it all the same. That cannot happen unless the
  free headers are counted between a callback's release and its fetch (`CameraBurst.NoNullHeader`,
  `CameraBurst.CountInBetweenSendsNull`).
* `bg_sub_par.cpp:53-83` assigns overlapping rows to two workers when the height is 2 or 3
  (`BgSub.DisjointUnlessTiny`); the result is the same.

## Model

| member | source | states |
|---|---|---|
| PixelGrid.QuotientAndRemainder | blob_detect.cpp:7 | The row and column used throughout are the quotient and remainder of the flat index by the width, so `IDX` is a bijection between coordinates and indices |
| PixelGrid.InteriorMeaning | blob_detect.cpp:45-46 | The interior is every row and column but the first and the last |
| PixelGrid.EarlierNeighbours | blob_detect.cpp:48-66 | The four pixels A, B, C, D are in range, adjacent to the current pixel and visited before it |
| PixelGrid.EarlierAdjacentIsNeighbour | blob_detect.cpp:48-66 | Conversely every adjacent pixel visited earlier is one of those four, so the scan overlooks no adjacency |
| PixelGrid.ConnectedTransitive | blob_detect.cpp:28-29 | 8-connectivity through active interior pixels is transitive (with reflexive, symmetric and one-step lemmas beside it), which is what makes a blob well defined |
| BlobScan.MinLabelMeaning | blob_detect.cpp:68-74 | The minimum is the sentinel exactly when no neighbour has a label below it; otherwise it is one of the neighbours' labels and no nonzero one is lower |
| BlobScan.MinLabelIs | blob_detect.cpp:68-74 | In numbers: the least of the neighbours' labels from 1 to 254, and 255 if there are none |
| BlobScan.OpenKeeps | blob_detect.cpp:76-88 | Opening a label keeps the scan invariant: image, downward links through connected pixels, and exact statistics |
| BlobScan.RelinkKeeps | blob_detect.cpp:103-106 | Redirecting a label to a lower label that some active pixel touches as well keeps links downward and between connected labels only |
| BlobScan.JoinKeeps | blob_detect.cpp:89-107 | Joining a pixel to the least neighbouring label keeps the scan invariant |
| BlobScan.VisitKeeps | blob_detect.cpp:54-111 | Every visit of an interior pixel keeps the invariant: labelled exactly when active, equal labels connected, 1 <= link <= own label, statistics equal to a recount |
| BlobScan.ScanKeeps | blob_detect.cpp:45-113 | So does every prefix of the raster pass, from any start with a zero border, as long as no table overrun has happened |
| BlobBound.AskerIsLonely | blob_detect.cpp:62-88 | While all labels are visible, a pixel that asks for a new label has no active earlier neighbour |
| BlobBound.OpenersLonely | blob_detect.cpp:62-88 | The pixels that opened the labels so far are all of this kind and in raster order |
| BlobBound.SparseApart | blob_detect.cpp:62-88 | Such pixels are pairwise not 8-adjacent and lie in different 2x2 blocks of the interior |
| BlobBound.LabelBound | blob_detect.cpp:39-42 | At most ceil((w-2)/2)*ceil((h-2)/2) labels are issued while none passes the sentinel, and every one is an index below w*h/4 (w, h >= 3) |
| BlobBound.QuarterIsEnough | blob_detect.cpp:41-42 | One label per 2x2 block plus the unused entry 0 fit the table the code allocates |
| BlobBound.OverrunNeedsSentinel | blob_detect.cpp:41-42 | With that table the pass can only write outside it after label 255 has been issued; exactly when it does is `BlobRoom.SufficesIff` |
| BlobRoom.ScanTakes | blob_detect.cpp:57-111 | The labels do not depend on the table: any part of the scan has taken exactly the labels of a scan that always has room, or has stopped because there are more of them than the table and the 16-bit image hold |
| BlobRoom.LabelsOfImage | blob_detect.cpp:57-111 | Nor do they depend on what the interior of the output image held before |
| BlobRoom.SufficesIff | blob_detect.cpp:38-43 | For every image, table size and start: the pass does not overrun if and only if the number of labels that the image asks for is 0 or less than min(table size, 65536), and then it issues exactly that many |
| BlobRoom.HoldsMeans | blob_detect.cpp:38-43 | In numbers: a table holds some labels when there are fewer of them than entries and than 65536 |
| BlobRoom.FewLabelsSuffice | blob_detect.cpp:41-42 | A table of w*h/4 entries suffices for every image that asks for at most 255 labels, and for every image with fewer than 255 2x2 blocks in its interior, and the labels are no more than those blocks |
| BlobRoom.SentinelNeedsBlocks | blob_detect.cpp:41-42 | A scan that has issued label 255 covers at least 255 of those blocks |
| BlobRoom.NeededIsLonely | blob_detect.cpp:62-80 | The labels asked for are at least the active pixels without an active earlier neighbour, and exactly as many unless 255 of those exist |
| BlobOverrun.FullRowOverruns | blob_detect.cpp:41-42 | On every five-row image of 512 to 1000 columns with 255 single pixels in row 1 and a full row 3 the scan does ask for a label outside the table |
| BlobOverrun.HiddenStep | blob_detect.cpp:68-80 | A pixel whose labelled neighbours carry labels from 255 on opens a label, or overruns |
| BlobLinks.RootMeaning | blob_detect.cpp:115-120 | Following downward links from an issued label ends at a self-labelled label not above it |
| BlobLinks.RedirectFlattens | blob_detect.cpp:115-120 | One turn of the ascending redirect loop: if all entries below i already point at the roots of their original chains, then so does entry i afterwards |
| BlobLinks.SameRootConnected | blob_detect.cpp:45-120 | Two scanned pixels whose labels lead to the same root are joined by an 8-connected path of active interior pixels |
| BlobComplete.RelinkAllRelated | blob_detect.cpp:102-106 | The redirects of a join keep: two labels that were equal, linked, or lost as a pair still are, when every overwritten link to a third label counts as a lost pair |
| BlobComplete.LostLinksConnected | blob_detect.cpp:102-106 | An overwritten link joined labels held by connected pixels |
| BlobComplete.ScanTraces | blob_detect.cpp:45-113 | After any part of the scan the labels of adjacent pixels are equal, linked, or a lost pair, and lost pairs are held by connected pixels |
| BlobComplete.CompleteIff | blob_detect.cpp:45-120 | For every image whose scan does not overrun: 8-connected pixels end with equal labels if and only if the final table leads both labels of every lost pair to one root |
| BlobComplete.LosslessIsComplete | blob_detect.cpp:45-120 | In particular the labels are complete when the scan loses nothing |
| BlobForks.OneLabelAround | blob_detect.cpp:63-80 | Where nothing forks and all labels are visible, the labelled earlier neighbours of a pixel carry one label, the minimum, or there are none |
| BlobForks.ScanUniform | blob_detect.cpp:45-113 | On an image without forks, while all labels are visible, adjacent pixels have equal labels after any part of the scan and no link is lost |
| BlobForks.ForklessIsComplete | blob_detect.cpp:45-169 | Every image without forks and with fewer than 255 lonely pixels is labelled completely, without an overrun: a fork is an active pixel with the one above inactive, the one above right active, and the one above left or left active |
| BlobIncomplete.ArmsKeepDifferentLabels | blob_detect.cpp:102-120 | A concrete image on which the overwritten link at 103-106 leaves two arms of one 8-connected shape with different final labels |
| BlobStats.RecountMeaning | blob_detect.cpp:76-100 | What a recount says: the mass is the number of pixels of the class, and the box contains them all and is touched on each side |
| BlobStats.RecountTotals | blob_detect.cpp:99-100 | The coordinate sums are those of the columns and rows of the pixels themselves, added up pixel by pixel |
| BlobStats.RecountSums | blob_detect.cpp:86-100 | The coordinate sums of a class lie between its box sides times its mass |
| BlobStats.CentroidInBox | blob_detect.cpp:154-156 | The integer centroid of a nonempty blob lies in its bounding box, and the division is by a positive mass |
| BlobStats.RecountUnion | blob_detect.cpp:135-142 | Merging the statistics of two disjoint label classes field by field is the recount of their union |
| BlobStats.RecountRenamed | blob_detect.cpp:162-169 | Recounting a class of final labels is recounting all labels that are renamed into it |
| BlobMerge.MergeChild | blob_detect.cpp:129-143 | Merging a redirected entry keeps: every entry holds its own pixels and those of all higher labels redirected to it |
| BlobMerge.MergeRoot | blob_detect.cpp:144-159 | When the descending merge records a root, its entry already holds the whole blob |
| BlobMerge.RootsMeaning | blob_detect.cpp:126-160 | The recorded blobs are the roots, each once, in descending order |
| BlobMerge.RelabelledRecount | blob_detect.cpp:162-169 | The statistics recorded for a root are a recount of the pixels carrying it as their final label |
| BlobMerge.FinalLabelsAreRoots | blob_detect.cpp:122-169 | The final labels are exactly the roots, so `num_blobs` is the number of distinct final labels |
| BlobMerge.MassesTotal | blob_detect.cpp:140-150 | The masses of all blobs add up to the number of labelled pixels |
| BlobDetect.GrowStats | blob_detect.cpp:93-100 | The update of a joined label's statistics by one pixel, which keeps them a recount and so, by `BlobStats.RecountTotals`, keeps the sums those of the pixels |
| BlobDetect.JoinLabels | blob_detect.cpp:89-107 | The table after a join: the least label has gained the pixel, the other neighbours' labels point at it, in source order |
| BlobDetect.LeastLabel | blob_detect.cpp:68-74 | The four conditional assignments compute the specified minimum |
| BlobDetect.LabelPixel | blob_detect.cpp:54-111 | The loop body on the arrays does exactly one step of the specified scan |
| BlobDetect.LabelRow | blob_detect.cpp:46-112 | One row of the raster loop does the steps of that row and no others |
| BlobDetect.LabelPass | blob_detect.cpp:44-113 | The nested raster loops compute the specified scan of the whole image, in place |
| BlobDetect.RedirectPass | blob_detect.cpp:115-120 | The single ascending pass leaves every entry at the root of its original chain and changes nothing else |
| BlobDetect.MergeStats | blob_detect.cpp:135-142 | The in-place merge of one entry into another gives the statistics of the union (`BlobStats.RecountUnion`), sums included |
| BlobDetect.MergePass | blob_detect.cpp:122-160 | The descending merge leaves one record per root with exact statistics and centroid, and keeps all links |
| BlobDetect.RelabelPass | blob_detect.cpp:162-169 | Every interior label is replaced by what its entry is redirected to; the rest of the image stays |
| BlobDetect.RelabelRow | blob_detect.cpp:164-168 | One row of the relabelling loop |
| BlobDetect.FindBiggest | blob_detect.cpp:182-186 | The index found holds the greatest mass, and the first such |
| BlobDetect.FlatAfterRedirect | blob_detect.cpp:115-120 | After the redirect pass the table is flat and every entry still is the recount of its own label |
| BlobDetect.RelabelledSound | blob_detect.cpp:45-169 | The final image labels exactly the active interior pixels, and equal labels imply an 8-connected path |
| BlobDetect.RecountDescribes | blob_detect.cpp:135-156 | A record describes its pixels in the image's own terms: their number, their tight box, and as centroid the quotients of their column and row sums by that number |
| BlobDetect.BiggestOfRecorded | blob_detect.cpp:182-196 | The chosen record describes a blob of the final image, and no blob has more pixels |
| BlobDetect.RecordedDescribes | blob_detect.cpp:122-169 | The recorded blobs describe each final label exactly once, and their masses total the active interior pixels |
| BlobDetect.Detect | blob_detect.cpp:36-196 | The phases together: `ok` if and only if the labels that the image asks for fit, soundness, completeness if and only if the lost pairs are rejoined and for every image without forks and with fewer than 255 lonely pixels, one record for each final label that gives the number, tight box and centroid of its pixels, masses totalling the active interior pixels, the number of blobs, and the first of the biggest of them |
| GrabHandshake.StepKeeps | raspicam-0.1.6/src/private/private_impl.h:57-80 | Every step of every thread and of the callback, spurious wake-ups included, keeps mutual exclusion, the flag protocol and the history invariant |
| GrabHandshake.RunKeeps | raspicam-0.1.6/src/private/private_impl.cpp:466-504 | So does every run, for any number of grabbing threads |
| GrabHandshake.NoLostWakeUp | raspicam-0.1.6/src/private/threadcondition.cpp:56-69 | In every reachable state a blocked, un-notified waiter implies `wantToGrab && !ready`, unless the callback is in its critical section and about to notify |
| GrabHandshake.CallbackServesWaiters | raspicam-0.1.6/src/private/private_impl.cpp:466-504 | A callback with a nonempty frame that runs while somebody waits leaves nobody blocked, and the waiter can then complete its grab |
| GrabHandshake.GrabIsFresh | raspicam-0.1.6/src/private/private_impl.h:63-71 | A grab that completes has seen a nonempty frame copied after its request, under any interleaving, and that is what the buffer holds |
| GrabHandshake.FrozenBetweenGrabs | raspicam-0.1.6/src/private/private_impl.cpp:473-482 | With a single grabber the buffer is not written from the end of a grab until the next request |
| GrabHandshake.GrabReturnsFirstFrame | raspicam-0.1.6/src/private/private_impl.cpp:168-180 | With a single grabber the grab returns exactly the first frame copied after its request |
| GrabHandshake.SecondGrabberOverwrites | raspicam-0.1.6/src/private/private_impl.cpp:473-482 | With a second grabber, wherever it is, a run in which the first neither enters nor asks puts any nonempty frame in the buffer, from every state with the mutex free and no callback running |
| GrabHandshake.Reachable | raspicam-0.1.6/src/private/private_impl.h:57-80 | Both invariants hold in every state that the handshake reaches from its start, the second with a single grabber |
| GrabHandshake.FrozenIffAlone | raspicam-0.1.6/src/private/private_impl.cpp:473-482 | In every reachable state with the mutex free and no callback running, the frame of a thread that is back from its grab stays in the buffer through every run in which it does not ask again, if and only if no other thread grabs |
| CameraPool.Circulation.constructor | raspicam-0.1.6/src/private/private_impl.cpp:128-130 | All headers start in the pool |
| CameraPool.Circulation.StartCapture | raspicam-0.1.6/src/private/private_impl.cpp:128-142 | With nothing in between: the pool is emptied; accepted sends are with the port in pool order, refused ones with nobody; every header is still in one place |
| CameraPool.Circulation.VideoBufferCallback | raspicam-0.1.6/src/private/private_impl.cpp:485-498 | The released header goes to the tail of the pool and the head goes to an enabled port; with a successful send the port's count is kept |
| CameraPool.EveryHeaderHasAnOutcome | raspicam-0.1.6/src/private/private_impl.cpp:128-142 | A burst of sends splits the headers between accepted and refused, as multisets |
| CameraPool.AllAccepted | raspicam-0.1.6/src/private/private_impl.cpp:128-142 | If all sends succeed the port holds exactly the pool, in order |
| CameraPool.RecirculationConserves | raspicam-0.1.6/src/private/private_impl.cpp:485-498 | Whatever a callback meets (port disabled, send refused), each header is in exactly one of pool, port and dropped |
| CameraPool.FirstInFirstOut | raspicam-0.1.6/src/private/private_impl.cpp:485-498 | Over any run of callbacks the headers leave the pool in the order in which they entered it |
| CameraBurst.RunConserves | raspicam-0.1.6/src/private/private_impl.cpp:128-142 | With callbacks between any two operations of the burst, every header stays in exactly one place, hands included |
| CameraBurst.FirstInFirstOut | raspicam-0.1.6/src/private/private_impl.cpp:128-142 | So they do in every interleaving of the burst with callbacks |
| CameraBurst.NoNullHeader | raspicam-0.1.6/src/private/private_impl.cpp:130-138 | If the free headers are not counted between a callback's release and its fetch, no fetch finds the pool empty and no null header is sent, in any interleaving |
| CameraBurst.NoNullFromStart | raspicam-0.1.6/src/private/private_impl.cpp:128-138 | In particular in every run from a first start, with any headers in the pool and at the port |
| CameraBurst.CountInBetweenSendsNull | raspicam-0.1.6/src/private/private_impl.cpp:130-138 | From every state in which they are counted there, the burst can end by sending a null header |
| ClockFilter.SaturateAddMeaning | raspicam-0.1.6/dependencies/current/interface/mmal/components/clock.c:182-190 | The sum is clamped to the 64-bit range if and only if not both addends are the least integer |
| ClockFilter.FilterRefinesWindow | raspicam-0.1.6/dependencies/current/interface/mmal/components/clock.c:194-228 | For samples whose full window fits in 64 bits: after any mix of init, insert and drop the filter is exactly the latest samples, as many as the inserts and drops leave, and the sum is their exact sum; and the next insert writes outside of the filter if and only if it is longer than 180 and 180 samples have been inserted since the last init |
| ClockFilter.MeanBetween | raspicam-0.1.6/dependencies/current/interface/mmal/components/clock.c:309-318 | The mean of a nonempty filter lies between the bounds of its samples |
| ClockFilter.Filter.constructor | raspicam-0.1.6/dependencies/current/interface/mmal/components/clock.c:194-199 | A new filter is the empty window of its length, whatever the length |
| ClockFilter.Filter.Init | raspicam-0.1.6/dependencies/current/interface/mmal/components/clock.c:194-199 | Resetting the ring empties the window and keeps the length |
| ClockFilter.Filter.IndexWrap | raspicam-0.1.6/dependencies/current/interface/mmal/components/clock.c:202-205 | The index arithmetic is increment modulo the length, or modulo 1 for length 0 |
| ClockFilter.Filter.Drop | raspicam-0.1.6/dependencies/current/interface/mmal/components/clock.c:208-216 | On the ring buffer, drop removes the oldest sample of the window, and nothing from an empty one |
| ClockFilter.Filter.Append | raspicam-0.1.6/dependencies/current/interface/mmal/components/clock.c:224-227 | On a ring buffer that is not full and has a cell left, the sample goes behind the newest one |
| ClockFilter.Filter.Insert | raspicam-0.1.6/dependencies/current/interface/mmal/components/clock.c:219-228 | On the ring buffer, insert appends to the window, after dropping the oldest sample of a full one, wherever it stays within the filter |
| ClockStream.UpdatedKeeps | raspicam-0.1.6/dependencies/current/interface/mmal/components/clock.c:276-330 | New timing information keeps the stream invariant: both filters equally long and exact, averages within the bounds of the samples, deviation not negative; only a completed frame leaves a sample in a filter of length 0 |
| ClockStream.RefreshedKeeps | raspicam-0.1.6/dependencies/current/interface/mmal/components/clock.c:427-454 | Ageing keeps the two filters in step, so neither average divides by zero |
| ClockStream.Stream.constructor | raspicam-0.1.6/dependencies/current/interface/mmal/components/clock.c:232-248 | A new stream has two empty filters of the given length, with separate histories |
| ClockStream.Stream.Sample | raspicam-0.1.6/dependencies/current/interface/mmal/components/clock.c:309-318 | The previous time stamp less its arrival enters the average filter (`ClockSamples.SampleFollows` reads it off the time stamps that came in), its distance from the new average the deviation filter |
| ClockStream.Stream.Reset | raspicam-0.1.6/dependencies/current/interface/mmal/components/clock.c:259-273 | The stream is as new and keeps its filter length |
| ClockStream.Stream.Update | raspicam-0.1.6/dependencies/current/interface/mmal/components/clock.c:276-330 | The fields after an update and the event reported: first data, discontinuity, complete frame, a sample without a cell, or none; over whole runs it is what `ClockSamples.StreamFollows` states |
| ClockStream.Stream.Refresh | raspicam-0.1.6/dependencies/current/interface/mmal/components/clock.c:427-454 | Drops by age and recomputes average and deviation with truncating division |
| ClockSamples.SampleFollows | raspicam-0.1.6/dependencies/current/interface/mmal/components/clock.c:309-318 | A completed frame adds the previous time stamp less its arrival to the latest offsets, and its distance from their new mean to the latest deviations |
| ClockSamples.StreamFollows | raspicam-0.1.6/dependencies/current/interface/mmal/components/clock.c:276-330 | Over any timing information without a jump, the average filter holds exactly the latest values `pts - stc` of the last information before each change of the time stamp, read from the list of what came in, as many as it is long, and the average is their truncated mean; likewise the deviations |
| ClockSamples.RefreshFollows | raspicam-0.1.6/dependencies/current/interface/mmal/components/clock.c:427-454 | After a refresh too the averages are the means of what is left, which has lost everything, its oldest sample or nothing |
| ClockSamples.StartsOnOffset | raspicam-0.1.6/dependencies/current/interface/mmal/components/clock.c:501-510 | In every run in which all time stamps arrive with the difference d to the clock, whatever the other events, the clocks are only ever started on d less the latency last set plus the time of arrival |
| ClockSamples.CompletedFrameStarts | raspicam-0.1.6/dependencies/current/interface/mmal/components/clock.c:501-510 | And they are started so by every completed frame after a discontinuity, unless it faults |
| ClockControl.SelectFinds | raspicam-0.1.6/dependencies/current/interface/mmal/components/clock.c:412-476 | Where no division by a filter length of 0 ends the loop, a minimum and a maximum stream are found exactly when some stream has samples, and they are streams with samples |
| ClockControl.SelectIsExtreme | raspicam-0.1.6/dependencies/current/interface/mmal/components/clock.c:456-471 | No stream with samples beats the selected minimum or maximum by more than its own handicap |
| ClockControl.FullFiltersSelectExactly | raspicam-0.1.6/dependencies/current/interface/mmal/components/clock.c:456-471 | Once the filters are full the selected averages are exactly the least and the greatest |
| ClockTiming.BiasMeans | raspicam-0.1.6/dependencies/current/interface/mmal/components/clock.c:456-457 | A stream's handicap is its absolute average in proportion to what its filter lacks, rounded down |
| ClockTiming.SelectedBeatsEarlier | raspicam-0.1.6/dependencies/current/interface/mmal/components/clock.c:459-471 | A stream is selected over an earlier one only if it beats it with both handicaps counted |
| ClockControl.AdjustedCases | raspicam-0.1.6/dependencies/current/interface/mmal/components/clock.c:479-553 | An update faults at once if a stream with samples has a filter of length 0; otherwise, without samples it changes only the streams, and with samples it clears the discontinuity and the pending scale and records the time, and it faults exactly when a running clock has attack period 0 |
| ClockControl.ProcessKeeps | raspicam-0.1.6/dependencies/current/interface/mmal/components/clock.c:723-756 | Every event, at every frame rate, keeps exact streams and that a pending scale implies a discontinuity; one that does not fault leaves no sample in a filter of length 0 |
| ClockRuns.PendingImpliesDiscont | raspicam-0.1.6/dependencies/current/interface/mmal/components/clock.c:374-407 | In every reachable state between events `pending_scale` implies `clock_discont` |
| ClockRuns.ScaleIsLastAccepted | raspicam-0.1.6/dependencies/current/interface/mmal/components/clock.c:611-634 | In every run the scale of the component is the last one it accepted: every pause, and every request for speed 1 that differs from the scale accepted before |
| ClockRuns.ResumeIsSafe | raspicam-0.1.6/dependencies/current/interface/mmal/components/clock.c:499-552 | In every run a scale other than a pause reaches the ports only in an update that stopped the clocks and restarted them on a rebased media time, and it is the last scale accepted |
| ClockRuns.FaultIff | raspicam-0.1.6/dependencies/current/interface/mmal/components/clock.c:479-608 | For every event the component divides by zero or writes outside of a filter if and only if: it sets a frame rate of numerator 0, or is the first data of a port at denominator 0, or completes a frame and the filter has no cell left, or some stream with samples has a filter of length 0, or the clock runs with attack period 0 and the refresh leaves a sample |
| ClockRuns.CompletedFrameFaults | raspicam-0.1.6/dependencies/current/interface/mmal/components/clock.c:513-521 | With a frame duration and a latency target that are not negative, every completed frame of a running clock with attack period 0 faults |
| ClockRuns.ZeroLengthFaults | raspicam-0.1.6/dependencies/current/interface/mmal/components/clock.c:456-457 | Then every completed frame of a stream with filters of length 0 faults, whatever the attack period and even during a discontinuity |
| ClockRuns.OnlyAttackPeriodFaults | raspicam-0.1.6/dependencies/current/interface/mmal/components/clock.c:513-521 | At frame rates with filters of 1 to 180 samples the division by the attack period is the only fault, exactly when a completed frame of a running clock leaves a sample and the period is 0 |
| ClockRuns.SafeRunsGoOn | raspicam-0.1.6/dependencies/current/interface/mmal/components/clock.c:556-608 | At such rates, with attack periods that are not 0, no event of any run faults |
| ClockRuns.SlowRateFaults | raspicam-0.1.6/dependencies/current/interface/mmal/components/clock.c:596-600 | At one frame in three seconds the second frame time of a port divides by zero, on an otherwise default configuration |
| ClockRuns.DefaultConfigurationFaults | raspicam-0.1.6/dependencies/current/interface/mmal/components/clock.c:874-881 | With the configuration a component is created with, the third frame time of a port divides by zero |
| ClockRuns.SlewStep | raspicam-0.1.6/dependencies/current/interface/mmal/components/clock.c:513-548 | One update moves `mt_off_clk` toward `mt_off_target` without overshoot, by no more than the attack rate allows for the time passed |
| ClockTiming.TargetMeans | raspicam-0.1.6/dependencies/current/interface/mmal/components/clock.c:513-516 | The target is at most the greater stream's average less the latency, at most the lesser one's less a frame duration, and one of the two |
| ClockTiming.SteersByExtremes | raspicam-0.1.6/dependencies/current/interface/mmal/components/clock.c:488-517 | With full filters the clocks are restarted on the least of all averages less the latency, or get as target the lesser of the greatest average less the latency and the least less a frame |
| ClockTiming.CapIs | raspicam-0.1.6/dependencies/current/interface/mmal/components/clock.c:518-521 | The cap on one step is the time since the last update times the attack rate over the attack period, rounded down |
| ClockTiming.ConfidenceIs | raspicam-0.1.6/dependencies/current/interface/mmal/components/clock.c:528-539 | The confidence is 2^20 less a quarter of the deviation times the frame rate, down to 0 |
| ClockTiming.NoConfidenceNoMove | raspicam-0.1.6/dependencies/current/interface/mmal/components/clock.c:528-548 | From a deviation of four times 2^20 over the frame rate on, the clock does not move |
| ClockTiming.ConfidenceDamps | raspicam-0.1.6/dependencies/current/interface/mmal/components/clock.c:537-545 | With a full filter a step is the capped distance times the confidence over 2^20, rounded down |
| ClockTiming.FillingDamps | raspicam-0.1.6/dependencies/current/interface/mmal/components/clock.c:541-545 | With full confidence it is the capped distance times how full the filter is, off by less than one |
| ClockTiming.SilenceForgets | raspicam-0.1.6/dependencies/current/interface/mmal/components/clock.c:427-447 | In every update a stream silent for more than twice the latency target loses all samples and is not selected, and one silent for more than six frames loses its oldest sample, while all others keep theirs |
| ClockTiming.JumpRebases | raspicam-0.1.6/dependencies/current/interface/mmal/components/clock.c:283-306 | A first time stamp only starts its stream; a jump of time stamp or arrival beyond the threshold makes every stream start anew and raises the discontinuity |
| ClockTiming.SettingsStartAnew | raspicam-0.1.6/dependencies/current/interface/mmal/components/clock.c:611-675 | A new latency and an accepted resume make everything start anew; a new threshold is only stored |
| ClockTiming.FirstDataStarts | raspicam-0.1.6/dependencies/current/interface/mmal/components/clock.c:596-605 | The first data of a port gives it a stream with empty filters of two seconds of frames, started exactly when the time stamp is known |
| ClockTiming.RateMeans | raspicam-0.1.6/dependencies/current/interface/mmal/components/clock.c:775-786 | The frame duration is den * 10^6 / num and the filter length 2 * num / den, both rounded down (the length at clock.c:599-600) |
| ClockTiming.SpeedOneIff | raspicam-0.1.6/dependencies/current/interface/mmal/components/clock.c:611-634 | A request for speed 1 is accepted if and only if the scale is not 1 already |
| ClockRuns.SteadyUpdateReachesTarget | raspicam-0.1.6/dependencies/current/interface/mmal/components/clock.c:513-545 | With a full filter and no deviation the clock moves by the whole capped distance and reaches a target within the cap |
| ClockRuns.LeastStepsDiffer | raspicam-0.1.6/dependencies/current/interface/mmal/components/clock.c:541-545 | The two floor shifts round down: with any deviation the least step up is lost, the least step down is not |
| ClockRuns.AdjustedSlews | raspicam-0.1.6/dependencies/current/interface/mmal/components/clock.c:479-553 | An update outside a discontinuity, with a positive attack period, leaves the clock alone (and faults only at a filter of length 0) or slews it and sets exactly the resulting media time |
| ClockRuns.CalmStep | raspicam-0.1.6/dependencies/current/interface/mmal/components/clock.c:556-608 | One event without a discontinuity keeps the drift and monotonicity bounds |
| ClockRuns.DriftIsBounded | raspicam-0.1.6/dependencies/current/interface/mmal/components/clock.c:493-548 | Over any stretch without a discontinuity or a fault the total drift is at most elapsed time * attack_rate / attack_period, and with attack_rate <= attack_period the media time never goes backwards |
| ClockComponent.GetMtOffAvg | raspicam-0.1.6/dependencies/current/interface/mmal/components/clock.c:412-476 | The function refreshes the streams and selects what the specification selects, or faults where it does |
| ClockComponent.ConsiderOne | raspicam-0.1.6/dependencies/current/interface/mmal/components/clock.c:430-472 | One stream of the loop: refreshed, weighed and compared with the choice so far, or a division by its filter length of 0 |
| ClockComponent.SelectionStep | raspicam-0.1.6/dependencies/current/interface/mmal/components/clock.c:427-473 | One turn of the loop leaves the other streams alone and extends the choice by one stream |
| ClockComponent.SelectionLoop | raspicam-0.1.6/dependencies/current/interface/mmal/components/clock.c:427-473 | The loop ends at the first stream whose handicap divides by 0, with the streams up to it refreshed, or else refreshes and compares them all |
| ClockComponent.ResetStreams | raspicam-0.1.6/dependencies/current/interface/mmal/components/clock.c:378-381 | The loop over the ports resets every stream |
| ClockComponent.Component.constructor | raspicam-0.1.6/dependencies/current/interface/mmal/components/clock.c:836-886 | A new component has the default latency and frame rate, a discontinuity, no streams and no pending scale |
| ClockComponent.Component.SetClockScale | raspicam-0.1.6/dependencies/current/interface/mmal/components/clock.c:399-407 | Applies the scale to the ports and clears the pending flag |
| ClockComponent.Component.Restart | raspicam-0.1.6/dependencies/current/interface/mmal/components/clock.c:501-510 | The discontinuity branch: offset and target from the earliest stream, clocks stopped and started on the resulting media time |
| ClockComponent.Component.Slew | raspicam-0.1.6/dependencies/current/interface/mmal/components/clock.c:511-548 | The control-loop branch: target, cap, confidence, modulation and the media time set, or the division by an attack period of 0 |
| ClockComponent.Component.DivideByZero | raspicam-0.1.6/dependencies/current/interface/mmal/components/clock.c:514-521 | What has been stored when the division faults |
| ClockComponent.Component.Steer | raspicam-0.1.6/dependencies/current/interface/mmal/components/clock.c:499-552 | Either branch, then the pending scale |
| ClockComponent.Component.SteerSelected | raspicam-0.1.6/dependencies/current/interface/mmal/components/clock.c:488-552 | Without a selection nothing happens, otherwise the clocks are restarted or slewed |
| ClockComponent.Component.AdjustClocks | raspicam-0.1.6/dependencies/current/interface/mmal/components/clock.c:479-553 | The whole update on the heap: the specified new state and the specified commands to the clock ports |
| ClockComponent.Component.ResetClocks | raspicam-0.1.6/dependencies/current/interface/mmal/components/clock.c:374-383 | Resets all streams and raises the discontinuity |
| ClockComponent.Component.ProcessScaleEvent | raspicam-0.1.6/dependencies/current/interface/mmal/components/clock.c:611-634 | Pause at once, resume through a reset, other scales ignored or recorded as the code does |
| ClockComponent.Component.ProcessLatencyEvent | raspicam-0.1.6/dependencies/current/interface/mmal/components/clock.c:670-675 | Stores the latency and resets the clocks |
| ClockComponent.Component.SetFrameRate | raspicam-0.1.6/dependencies/current/interface/mmal/components/clock.c:775-786 | Stores the rate and the frame duration, or divides by a numerator of 0 |
| ClockComponent.Component.EnsureStream | raspicam-0.1.6/dependencies/current/interface/mmal/components/clock.c:596-603 | The first data on a port creates its stream, with a filter for two seconds of frames, and touches no other |
| ClockComponent.Component.UpdateStream | raspicam-0.1.6/dependencies/current/interface/mmal/components/clock.c:605 | Only the stream of the port is updated, and the event is the stream's |
| ClockComponent.Component.ProcessInputBufferInfo | raspicam-0.1.6/dependencies/current/interface/mmal/components/clock.c:585-608 | Creates the stream on first data, updates it and adjusts or resets the clocks according to the event, or stops at the specified fault |
| ClockEvents.StartPartition | raspicam-0.1.6/dependencies/current/interface/mmal/components/clock.c:861-869 | At creation all sixteen slots are free |
| ClockEvents.MoveKeepsPartition | raspicam-0.1.6/dependencies/current/interface/mmal/components/clock.c:678-712 | Moving a slot between the lists keeps each of the sixteen slots in exactly one of them, once |
| ClockEvents.PendingHead | raspicam-0.1.6/dependencies/current/interface/mmal/components/clock.c:695-712 | The slot at the head of the queue holds the oldest pending event |
| ClockEvents.EventQueue.constructor | raspicam-0.1.6/dependencies/current/interface/mmal/components/clock.c:861-869 | A new queue has no pending events |
| ClockEvents.EventQueue.Enqueue | raspicam-0.1.6/dependencies/current/interface/mmal/components/clock.c:678-692 | An event is appended, or refused exactly when sixteen are pending; a refused event's header is not given back |
| ClockEvents.EventQueue.Dequeue | raspicam-0.1.6/dependencies/current/interface/mmal/components/clock.c:695-712 | The oldest accepted event leaves first and its buffer header goes back to its port, or the queue reports that it is empty; exactly the headers of the events taken out have been given back |
| ContainerWriter.ScanFindsEarliest | raspicam-0.1.6/dependencies/current/interface/mmal/components/container_reader.c:492-520 | The wrapping scan finds the last visited ready port whose head is earliest, or none exactly when no visited port is ready |
| ContainerWriter.FullScan | raspicam-0.1.6/dependencies/current/interface/mmal/components/container_reader.c:492-520 | After a full turn from any start the head chosen is no later than the head of any ready port |
| ContainerWriter.PortOrder | raspicam-0.1.6/dependencies/current/interface/mmal/components/container_reader.c:533-572 | Over any run in which a port is not flushed or disabled, what it handed over followed by what it holds is exactly what was sent, in order |
| ContainerWriter.FrameInvKept | raspicam-0.1.6/dependencies/current/interface/mmal/components/container_reader.c:558-561 | `port_writing_frame` names the port of the last packet exactly when that packet left a frame of a framed port open |
| ContainerWriter.FramesAreAtomic | raspicam-0.1.6/dependencies/current/interface/mmal/components/container_reader.c:522-561 | While a port stays enabled, its open frame is continued by its own packets only, until the frame ends |
| ContainerWriter.SendKeepsMerge | raspicam-0.1.6/dependencies/current/interface/mmal/components/container_reader.c:711-716 | A send with a time stamp not below the port's last one keeps the merge invariant |
| ContainerWriter.ActionKeepsMerge | raspicam-0.1.6/dependencies/current/interface/mmal/components/container_reader.c:492-572 | So does an action that finds a buffer on every enabled port |
| ContainerWriter.MergeIsAscending | raspicam-0.1.6/dependencies/current/interface/mmal/components/container_reader.c:492-572 | Over any run of such sends and actions, all packets handed over are in ascending order of time stamps: a k-way merge |
| ContainerWriter.EmptyWriter | raspicam-0.1.6/dependencies/current/interface/mmal/components/container_reader.c:492-605 | A writer that was sent nothing satisfies the invariants those results start from |
| WriterOrder.ChosenPrecedes | raspicam-0.1.6/dependencies/current/interface/mmal/components/container_reader.c:492-520 | On the fields of the heads, for every mixture of known and unknown times: the chosen head's decoding time, or its presentation time if that is unknown, is not after that of any ready port's head |
| WriterOrder.EqualsTakeTurns | raspicam-0.1.6/dependencies/current/interface/mmal/components/container_reader.c:497-519 | While all heads have the same decoding time, each action serves the port before the one served last |
| WriterOrder.MergeByTime | raspicam-0.1.6/dependencies/current/interface/mmal/components/container_reader.c:492-572 | When all decoding times are known and ascend on each port, the packets handed over in any run with a buffer on every enabled port at each action ascend in `dts`, whatever their `pts`; when none is known they ascend in `pts` |
| WriterOrder.FailureIff | raspicam-0.1.6/dependencies/current/interface/mmal/components/container_reader.c:563-604 | The error flag rises if and only if a packet was handed over, its writing failed and the failure was reported |
| WriterOrder.NothingAfterFailure | raspicam-0.1.6/dependencies/current/interface/mmal/components/container_reader.c:478-604 | After that nothing more is written or announced |
| WriterOrder.EndsAreAnnounced | raspicam-0.1.6/dependencies/current/interface/mmal/components/container_reader.c:563-604 | While every packet is written, the ends of stream announced are those of the packets handed over, once each and in order |
| ContainerWriter.Writer.SelectPort | raspicam-0.1.6/dependencies/current/interface/mmal/components/container_reader.c:492-528 | The loop that gets and puts back every queue head leaves the queues as they were and chooses the specified port, whose head `WriterOrder.ChosenPrecedes` describes by its time stamps |
| ContainerWriter.Writer.WritePacket | raspicam-0.1.6/dependencies/current/interface/mmal/components/container_reader.c:533-604 | One buffer leaves the head of its queue, is handed over and returned; the frame and error flags follow |
| ContainerWriter.Writer.DoProcessing | raspicam-0.1.6/dependencies/current/interface/mmal/components/container_reader.c:478-605 | The action computes the specified new state, including the early returns and the error branches; over runs this is the merge by decoding time of `WriterOrder.MergeByTime` |
| ContainerWriter.Writer.Send | raspicam-0.1.6/dependencies/current/interface/mmal/components/container_reader.c:711-716 | Appends to the port's queue and changes nothing else |
| ContainerWriter.Writer.Flush | raspicam-0.1.6/dependencies/current/interface/mmal/components/container_reader.c:670-687 | Returns every queued buffer in order and leaves the queue empty |
| StillCapture.StoreByte | raspicam-0.1.6/src/private_still/private_still_impl.cpp:77-94 | Storing the next byte extends the stored prefix of the payload by one, the header bytes of RGB excepted |
| StillCapture.UserData.constructor | raspicam-0.1.6/src/private_still/private_still_impl.cpp:362-371 | A new collector has received and stored nothing |
| StillCapture.UserData.CopyByte | raspicam-0.1.6/src/private_still/private_still_impl.cpp:82-92 | One byte while there is room: stored, or skipped as part of the header, and counted |
| StillCapture.UserData.CopyBytes | raspicam-0.1.6/src/private_still/private_still_impl.cpp:77-94 | The copy loop takes the whole buffer into account, whether it stores, skips or gives up |
| StillCapture.UserData.BufferCallback | raspicam-0.1.6/src/private_still/private_still_impl.cpp:70-108 | After any buffers the array holds the longest prefix of the payload that fits, nothing else is written, and the caller is woken unless the collector had given up before this buffer |
| StillCapture.TakePicture | raspicam-0.1.6/src/private_still/private_still_impl.cpp:357-383 | For any cut of the stream into buffers the array gets the longest fitting prefix, and the caller is woken if and only if what arrived before the last buffer did not exceed the capacity |
| StillCapture.StoredBytes | raspicam-0.1.6/src/private_still/private_still_impl.cpp:77-94 | Byte for byte: the array gets the stream, in RGB encoding from its byte 54 on, as far as both go, and keeps what it held behind that |
| StillCapture.WokenMeans | raspicam-0.1.6/src/private_still/private_still_impl.cpp:72-106 | In numbers: the caller is woken if and only if nothing came before the last buffer, or the array has room and what came is no longer than the array, and in RGB 54 bytes more |
| StillCapture.AdvisedSizeSuffices | raspicam-0.1.6/src/private_still/private_still_impl.cpp:385-387 | An array of the advised size takes all of the payload of any image that is no longer, and the caller is woken |
| StillCapture.BitmapFillsAdvisedSize | raspicam-0.1.6/src/private_still/private_still_impl.cpp:385-387 | A bitmap of three bytes a pixel and its header fills an array of the advised size exactly |
| StillCapture.LateEndIsNotSeen | raspicam-0.1.6/src/private_still/private_still_impl.cpp:72-106 | For the wake-up the cut does matter: a too-long stream whose end comes in a buffer of its own never wakes the caller, although it does in one piece |
| StillCapture.EveryCutWakesIff | raspicam-0.1.6/src/private_still/private_still_impl.cpp:72-106 | Every cut of a stream wakes the caller if and only if the stream fits the array |
| AudioRender.FillConserves | raspicam-0.1.6/dependencies/current/interface/mmal/components/aaf_audio_render.cpp:175-202 | What a request delivers followed by what the queue is left to cause is what the queue had to cause before |
| AudioRender.FillCounts | raspicam-0.1.6/dependencies/current/interface/mmal/components/aaf_audio_render.cpp:175-202 | A request gets exactly min(space, bytes queued) bytes, and the headers it returns are the first of the queue |
| AudioRender.FillLeaves | raspicam-0.1.6/dependencies/current/interface/mmal/components/aaf_audio_render.cpp:175-202 | A request leaves the queue from some buffer on, of which it may have taken the first bytes: the rest keeps its place in memory, its flags and its time |
| AudioRender.FillDrains | raspicam-0.1.6/dependencies/current/interface/mmal/components/aaf_audio_render.cpp:175-202 | A request for more than there is plays everything and empties the queue, empty buffers included |
| AudioRender.FillInTwo | raspicam-0.1.6/dependencies/current/interface/mmal/components/aaf_audio_render.cpp:175-202 | Two requests in a row do exactly what one request for their sum does |
| AudioRender.TurnsAreFill | raspicam-0.1.6/dependencies/current/interface/mmal/components/aaf_audio_render.cpp:175-202 | The turns of the loop, each of which finishes or puts back the head, add up to the specified request |
| AudioRender.FillKeeps | raspicam-0.1.6/dependencies/current/interface/mmal/components/aaf_audio_render.cpp:175-206 | A request keeps the balance: `bytes_queued` is the total queued length modulo 2^32, and trace plus queue is what was sent |
| AudioRender.SendKeeps | raspicam-0.1.6/dependencies/current/interface/mmal/components/aaf_audio_render.cpp:409-421 | A send keeps the balance |
| AudioRender.DeliveredInOrder | raspicam-0.1.6/dependencies/current/interface/mmal/components/aaf_audio_render.cpp:164-206 | The bytes delivered since the last flush, followed by the payloads still queued, are the payloads sent since; headers come back in the order sent |
| AudioRender.EosAfterLastByte | raspicam-0.1.6/dependencies/current/interface/mmal/components/aaf_audio_render.cpp:189-201 | Wherever end of stream stands in what was delivered since the last flush, the bytes before it are exactly the payloads sent up to and including a flagged buffer, and that buffer's return follows directly |
| AudioRender.FramesTakeTheirTime | raspicam-0.1.6/dependencies/current/interface/mmal/components/aaf_audio_render.cpp:413-414 | Whole frames in the queue take exactly the time of that many samples, rounded down |
| AudioRender.MediaTimeMeans | raspicam-0.1.6/dependencies/current/interface/mmal/components/aaf_audio_render.cpp:389-415 | The media time announced is the time stamp less the latency in thousands of microseconds less the playing time of the queued frames, for compressed audio with the track's frames and 4 bytes a frame, for E-AC3 up to 48 kHz at four times the rate |
| AudioRender.LatencyPutsBack | raspicam-0.1.6/dependencies/current/interface/mmal/components/aaf_audio_render.cpp:393-415 | Each further millisecond of device latency puts it back by a thousand microseconds |
| AudioRender.GaplessBuffersAgree | raspicam-0.1.6/dependencies/current/interface/mmal/components/aaf_audio_render.cpp:412-419 | While nothing is played, buffers that follow each other without a gap announce the same media time |
| AudioRender.Renderer.Send | raspicam-0.1.6/dependencies/current/interface/mmal/components/aaf_audio_render.cpp:366-424 | Events are returned at once, a failed component accepts nothing, otherwise the buffer is queued and counted and the media time at the output is announced |
| AudioRender.Renderer.Flush | raspicam-0.1.6/dependencies/current/interface/mmal/components/aaf_audio_render.cpp:331-342 | Every queued header is returned in order and the count is zero |
| AudioRender.Renderer.TakeFromHead | raspicam-0.1.6/dependencies/current/interface/mmal/components/aaf_audio_render.cpp:177-201 | One turn of the loop on the queue, the destination and the client |
| AudioRender.Renderer.Pump | raspicam-0.1.6/dependencies/current/interface/mmal/components/aaf_audio_render.cpp:175-202 | The loop terminates and fills the destination as specified |
| AudioRender.Renderer.TrackCallback | raspicam-0.1.6/dependencies/current/interface/mmal/components/aaf_audio_render.cpp:148-206 | The callback delivers the specified bytes, leaves the rest of the destination alone and keeps the invariant; other events and an empty queue change nothing |
| Passthrough.Component.PortSend | raspicam-0.1.6/dependencies/current/interface/mmal/components/passthrough.c:104-168 | A send on either port: match and pass the input's fields to the output (`Passthrough.PayloadsPassThrough`), queue, or put both back on a failure, and the error flag only if the report was sent |
| Passthrough.Component.PortFlush | raspicam-0.1.6/dependencies/current/interface/mmal/components/passthrough.c:80-94 | Returns the queue of that port in order |
| Passthrough.SendKeepsPairing | raspicam-0.1.6/dependencies/current/interface/mmal/components/passthrough.c:118-155 | A successful send keeps: the k-th input is replicated into exactly the k-th output and the surplus waits in order |
| Passthrough.RunPairs | raspicam-0.1.6/dependencies/current/interface/mmal/components/passthrough.c:104-155 | Over any interleaving of successful sends the pairing holds, at most one queue is nonempty, and the queue lengths are max(0, nin-nout) and max(0, nout-nin) |
| Passthrough.PayloadsPassThrough | raspicam-0.1.6/dependencies/current/interface/mmal/components/passthrough.c:118-155 | In any run of successful sends the k-th header given out has the k-th output's identity with the length and content of the k-th input, which comes back with length 0; so the contents given out are, in order, a prefix of the contents sent in, as many as both ports have been sent headers |
| Passthrough.InOrderPassesThrough | raspicam-0.1.6/dependencies/current/interface/mmal/components/passthrough.c:118-155 | For any state, being in order and passing the payloads through are the same |
| Passthrough.InterleavingDoesNotMatter | raspicam-0.1.6/dependencies/current/interface/mmal/components/passthrough.c:104-155 | Two interleavings of the same inputs and the same outputs end alike |
| Passthrough.InOrderIff | raspicam-0.1.6/dependencies/current/interface/mmal/components/passthrough.c:104-168 | For every run without a flush: the k-th pair given back is the k-th input with the k-th output, for all k, if and only if nothing is given back after a failure that was not reported |
| Passthrough.ReportedFailuresKeepOrder | raspicam-0.1.6/dependencies/current/interface/mmal/components/passthrough.c:157-167 | When every failed replication is reported the pairs given back are in order, failures or not |
| Passthrough.LaterPairIsNewer | raspicam-0.1.6/dependencies/current/interface/mmal/components/passthrough.c:157-167 | A pair given back after an unreported failure contains a header sent after it, so its number is too high |
| PassthroughOrder.AfterUnreported | raspicam-0.1.6/dependencies/current/interface/mmal/components/passthrough.c:118-167 | After an unreported failure something more is given back if and only if a later send replicates before a failure is reported; until then both queues stay nonempty |
| PassthroughOrder.QueuesAreSurplus | raspicam-0.1.6/dependencies/current/interface/mmal/components/passthrough.c:118-155 | While every send that meets a header replicates it, the queues are the surplus of one port over the other |
| PassthroughOrder.KeepsOrderMeaning | raspicam-0.1.6/dependencies/current/interface/mmal/components/passthrough.c:112-167 | Nothing is given back after an unreported failure if and only if the first failure is reported or no later send replicates before a failure is |
| PassthroughOrder.InOrderIffCalls | raspicam-0.1.6/dependencies/current/interface/mmal/components/passthrough.c:104-168 | So, for every run without a flush and in terms of the calls alone: all pairs are in order if and only if that holds of the first send that meets a header and fails to replicate it |
| Passthrough.RunConserves | raspicam-0.1.6/dependencies/current/interface/mmal/components/passthrough.c:80-168 | In every run, failures and flushes included, each header sent is queued or was given back, exactly once |
| Passthrough.NothingAfterError | raspicam-0.1.6/dependencies/current/interface/mmal/components/passthrough.c:112-116 | After a reported failure no pair is ever given back again |
| Passthrough.UnreportedFailureReorders | raspicam-0.1.6/dependencies/current/interface/mmal/components/passthrough.c:157-167 | A failure whose report cannot be sent lets the second input be paired before the first |
| Passthrough.BothQueuesMeanFailure | raspicam-0.1.6/dependencies/current/interface/mmal/components/passthrough.c:157-167 | A failed replication is the only way both queues can be nonempty |
| AudioSlicer.SliceFits | raspicam-0.1.6/dependencies/current/interface/mmal/components/avcodec_audio_decoder.c:325-330 | For every format a slice is no larger than what it is cut from |
| AudioSlicer.SliceIsWholeFrames | raspicam-0.1.6/dependencies/current/interface/mmal/components/avcodec_audio_decoder.c:329-330 | With whole-byte samples a slice holds exactly as many whole frames as there is room for |
| AudioSlicer.ProgressIffRoom | raspicam-0.1.6/dependencies/current/interface/mmal/components/avcodec_audio_decoder.c:325-335 | A slice is nonempty if and only if the block and the buffer both hold a whole frame |
| AudioSlicer.SlicesJoinUp | raspicam-0.1.6/dependencies/current/interface/mmal/components/avcodec_audio_decoder.c:325-335 | The slices joined up, followed by the rest, are the block, for all buffer sizes and formats |
| AudioSlicer.BuffersAreFilled | raspicam-0.1.6/dependencies/current/interface/mmal/components/avcodec_audio_decoder.c:325-335 | Slice k goes into the k-th free buffer and holds as many whole frames as that buffer and what is left of the block have room for |
| AudioSlicer.WholeBlockIsSent | raspicam-0.1.6/dependencies/current/interface/mmal/components/avcodec_audio_decoder.c:306-352 | With room for a frame in every buffer and enough buffers, a block of whole frames is sent completely, in slices of whole frames |
| AudioSlicer.RemainderStays | raspicam-0.1.6/dependencies/current/interface/mmal/components/avcodec_audio_decoder.c:325-336 | For any buffers, what is left of a block is a whole number of frames if and only if the block was |
| AudioSlicer.BlockEndsIff | raspicam-0.1.6/dependencies/current/interface/mmal/components/avcodec_audio_decoder.c:306-352 | With room for a frame in every buffer and as many buffers as frames, a block is used up if and only if it is a whole number of frames |
| AudioSlicer.RemainderUsesUpBuffers | raspicam-0.1.6/dependencies/current/interface/mmal/components/avcodec_audio_decoder.c:325-335 | A remainder shorter than a frame is never sent and uses up every free buffer |
| AudioSlicer.StampsWhenUnknown | raspicam-0.1.6/dependencies/current/interface/mmal/components/avcodec_audio_decoder.c:337-347 | A block without a time goes on from the last one: every slice is stamped with the time its last sample ends |
| AudioSlicer.StampsWhenKnown | raspicam-0.1.6/dependencies/current/interface/mmal/components/avcodec_audio_decoder.c:337-347 | A block with a time: the first slice has it, every later one the time its last sample ends |
| AudioSlicer.StampsAreAscending | raspicam-0.1.6/dependencies/current/interface/mmal/components/avcodec_audio_decoder.c:337-349 | Time stamps within a block never go backwards |
| AudioSlicer.LaterStampsAreLate | raspicam-0.1.6/dependencies/current/interface/mmal/components/avcodec_audio_decoder.c:338-347 | Later slices are stamped late, by their own duration, rather than with the time they start: never early, and at sample rates up to a million late if and only if the slice is not empty |
| AudioSlicer.Decoder.SendFrame | raspicam-0.1.6/dependencies/current/interface/mmal/components/avcodec_audio_decoder.c:306-352 | One slice is sent as specified if and only if there is a block, the port's format has the decoded rate, channels and sample width, and a buffer is free; otherwise nothing changes but the configuring flag |
| AudioSlicer.Decoder.Drain | raspicam-0.1.6/dependencies/current/interface/mmal/components/avcodec_audio_decoder.c:364-373 | The processing loop sends slices until the block or the buffers are used up, and stops on a format change |
| BgSub.ISqrt | bg_sub.cpp:20 | The truncated square root: r*r <= n < (r+1)*(r+1) |
| BgSub.ThresholdOnSquares | bg_sub.cpp:20-21 | The truncated root exceeds 30 if and only if the squared distance is at least 961 |
| BgSub.ForegroundMeans | bg_sub.cpp:12-25 | A pixel 31 or more apart in any one channel, or 18 or more in all three, is foreground; one at most 17 apart in all, or less than 31 in only one, is not |
| BgSub.PixelMask | bg_sub.cpp:12-25 | The inner loop and the test compute whether the squared colour distance is at least 961 |
| BgSub.BgSub | bg_sub.cpp:10-28 | Every pixel of the result is 255 exactly when its squared distance is at least 961, and 0 otherwise |
| BgSub.BgSubHelper | bg_sub_par.cpp:16-34 | The rows of the range are masked and no other pixel changes; an empty or reversed range changes nothing |
| BgSub.RangesCover | bg_sub_par.cpp:53-83 | For every height the four row ranges together are exactly all rows |
| BgSub.DisjointUnlessTiny | bg_sub_par.cpp:53-83 | No two ranges share a row if and only if the height is neither 2 nor 3 |
| BgSub.ParallelIsSequential | bg_sub_par.cpp:48-90 | Every schedule in which the four workers finish leaves exactly the sequential result |
| BgSub.ParallelInBetween | bg_sub_par.cpp:48-90 | At every moment of every schedule each pixel is the old one or already right |
| BgSub.WorkerAloneIsHelper | bg_sub_par.cpp:36-39 | A worker on its own does what the helper does on its rows |
| Workers.AnySchedule | bg_sub_par.cpp:79-88 | Workers that write an array in any interleaving keep it between its old and its new contents |
| Workers.TurnsCount | bg_sub_par.cpp:79-88 | How far a worker gets depends on the number of its turns alone |
| Workers.AllSchedulesAgree | bg_sub_par.cpp:79-88 | All schedules that give every worker enough turns leave the same array |
| Blur.BlurredBetween | blur.cpp:20-40 | A blurred value lies between any bounds on the values under the window's entries with a weight, hence between the window's minimum and maximum |
| Blur.BlurredIsByte | blur.cpp:36-41 | So the cast to a byte never changes it |
| Blur.WeightIffCounts | blur.cpp:25-38 | The divisor is nonzero if and only if some entry of the window inside the frame has a weight |
| Blur.CentreCounts | blur.cpp:25-38 | A positive weight at the centre makes the division defined at every pixel |
| Blur.CentreOnlyIsIdentity | blur.cpp:9-38 | A window with a weight at its centre only leaves every byte of the frame as it is |
| BlurImpulse.InsideDivisor | blur.cpp:20-38 | Where the window lies in the frame the divisor is the sum of all of its weights |
| BlurImpulse.Response | blur.cpp:20-40 | The response to a single bright byte: its value times the weight of the window's entry that covers it, over the sum of the weights, and 0 where the window does not cover it |
| BlurImpulse.ChannelsApart | blur.cpp:20-40 | The other channels stay black, also at the border |
| Blur.SumTaps | blur.cpp:20-36 | The two inner loops compute the weighted sums of the three channels and of the weights |
| Blur.OneTap | blur.cpp:22-36 | One entry of the window: nothing outside the frame, otherwise its weight and its channels times its weight |
| Blur.BlurPixel | blur.cpp:13-41 | One pixel: its three bytes become the averages, and nothing else changes |
| Blur.Blur | blur.cpp:3-46 | Every byte of the result is the weighted average at its pixel, each weight counting in proportion and at its place (`BlurImpulse.Response`) |
| Blur.BlurHelper | blur_par.cpp:18-68 | Exactly the pixels of the row and column range that are off the border get the same weighted average, the others stay |
| BlurParallel.StripsAgreeWithBlur | blur_par.cpp:75-102 | Every schedule in which the 32 workers finish leaves exactly the sequential blur on the written pixels, and the old bytes elsewhere |
| BlurParallel.StripsInBetween | blur_par.cpp:75-102 | At every moment a byte is the old one or the sequential blur's |
| BlurParallel.WorkerAloneIsHelper | blur_par.cpp:70-73 | A worker on its own does what the helper does on its strip |
| BlurParallel.WrittenMeans | blur_par.cpp:30-32 | The written pixels are those off the border whose column lies in some strip |
| BlurParallel.StripsApart | blur_par.cpp:95-96 | No two strips share a column, and the last column of a strip is in none |
| BlurParallel.StripsInFrame | blur_par.cpp:85-96 | The strips lie in the frame, and the columns the division leaves over are in none |
| BlurParallel.StripColumns | blur_par.cpp:85-96 | A column is in some strip if and only if the division does not leave it over and it is not the last one of its strip |

## Left out

- BlobDetect.Detect: when no blob was found the original copies an uninitialized record, and nothing is promised about the biggest blob. A label that does not fit ends the model's call with `ok == false`: the original then writes outside of its table, or, past 16 bits, stores the label modulo 65536 in the output image and goes on.
- BlobScan.ScanKeeps: sums and masses are unbounded integers; their overflow on very large images is not modelled.
- ClockFilter.FilterRefinesWindow: asks for samples so small that a full window of them fits in 64 bits; for larger samples only the exact condition of the saturating sum is stated.
- ClockStream.UpdatedKeeps: time stamps are limited to 2^52 microseconds in either direction; beyond that the subtractions of the original may wrap.
- ClockControl.ProcessKeeps: the frame rate as a power of two is a parameter of the component, so `next_pow2` and `pow2_shift` are not modelled. The products of the control loop and the doubled frame rate are unbounded integers. What the original does after a division by zero or a write outside of a filter is not modelled.
- ClockComponent.Component.AdjustClocks: commands to the clock ports are recorded as one list rather than once for every enabled port; a command without enabled ports has no effect in the original. The identifiers of the chosen streams, which only serve the log, are not modelled.
- CameraPool.Circulation.StartCapture: the burst is one step; its interleaving with callbacks is the subject of CameraBurst, which takes one callback at a time.
- GrabHandshake.RunKeeps: one callback at a time, as the media library calls it; termination of a grab under an unfair scheduler is not claimed.
- StillCapture.UserData.BufferCallback: `bufferPosition` and `offset` are unbounded integers; the image callback of the asynchronous form is not modelled.
- AudioSlicer.Decoder.Drain: only the part of the processing loop that hands out a decoded block; decoding, the input queue and the end of stream are foreign calls or easier members.
- Blur.Blur: sums are unbounded integers, where the original's would overflow only for windows of more than 33000 entries; a window without any weight at some pixel divides by zero in the original and is excluded.
- BlurParallel.StripsAgreeWithBlur: full-image equality with the sequential blur is not claimed, because borders and the last column of each strip are not written; the statement is exact about which pixels are.
- Workers.AllSchedulesAgree: a write of one element is one step and threads are scheduled in any order; the memory model below that is not modelled.
- Drawing, brightness scaling and the optional output at the end of blob detection (blob_detect.cpp:198-229).
- The parallel blob detection (blob_detect_par.cpp): its strip workers read rows that others are writing, so that its result depends on the schedule.
- The SIMD variants, image file reading and writing, comparison tools, drivers with a `main`, timing and logging.
- Camera settings, encoding tables and conversions, `scaler.h`, and the parsing of `/proc/cpuinfo`.
- The thresholds that the clock component only forwards to its ports, and its control parameters.
- The container reader, the aggregator, and the video decoder and other components that mainly consist of foreign calls.
- Allocation failures, except where the code itself handles them.
