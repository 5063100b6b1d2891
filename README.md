# Spectrometer WebHID driver — a Dafny model

`Spectrometer` is a browser class that drives a spectrometer over WebHID. It connects to
the device, sends command frames as HID output reports, and reassembles the device's
replies from the input reports that come back. On top of that it provides three commands:
start a scan, read the active scan configuration, and download a file in chunks.

This project models that class and proves properties of the model. The modules are:

- `Results`: the outcomes of the driver's operations. `Failure` has one constructor for
  each way a JavaScript operation throws or rejects.
- `Bytes`: bytes, input-report chunks, their concatenation in arrival order, and
  `Array.prototype.reverse`.
- `Frame`: the 6-byte command header (flags, sequence, two length bytes, command, group)
  and the length field of a reply header.
- `Combine`: `shiftBytes`, with JavaScript's `<<`. The shift count is taken modulo 32 and
  the result is read back as a signed 32-bit integer. The module relates `shiftBytes` to
  big- and little-endian values.
- `Configuration`: `parseConfigurationData`. A field that lies past the end of the reply
  is JavaScript's `undefined`, written `None`.
- `Reassembly`: how `receiveCommand` turns the input reports that follow a read command
  into reply data. This is stated on the finite stream of reports, as a value. Running out
  of reports stands for a timer firing, or for a wait that never ends.
- `Transfer`: `getFile`'s size exchange and chunk loop, stated on the same stream.
- `Driver`: two classes.
  - `HidDevice` stands in for the browser's device object. Whether `open()` and
    `sendReport()` succeed is fixed when it is created. The input reports that arrive while a
    wait is listening are in `inbox`, and every report it accepts is logged in `reports`.
  - `Spectrometer` holds the state of the JavaScript class. Its methods have the source's
    loops, and each method is proved against the functions of `Reassembly` and
    `Transfer`.

The driver's methods model the code as written, including the double wait for large
replies described under "## Findings". Both reassemblies agree on every reply that
declares at most 60 bytes. That covers a 5-byte configuration reply and a size reply of at
most three bytes. It does not cover the chunk replies of a file download, where a reply can
declare more.

## Model

| member | source | states |
|---|---|---|
| Frame.FrameLayout | Spectrometer.js:152-160 | BuildFrame's command frame is the data preceded by six bytes: the flags, sequence byte 0, length LSB, length MSB 0, the command byte and the group byte, in that order. |
| Frame.FrameLengthField | Spectrometer.js:155-156 | The length field read back from a BuildFrame frame is (data length + 2) mod 256. It equals data length + 2 exactly when the data is at most 253 bytes. |
| Frame.DeclaredLength | Spectrometer.js:229 | `(header[3] << 8) \| header[2]` is below 65536. Its low byte is header[2] and its high byte is header[3]. |
| Frame.DeclaredLengthInjective | Spectrometer.js:243 | Two headers declare the same reply length if and only if their two length bytes agree. |
| Combine.ShiftLeft32 | Spectrometer.js:289 | `x << s` lies in the signed 32-bit range. It equals x·2^(s mod 32) exactly when that product is below 2^31, and differs from it otherwise. |
| Combine.ShiftBytes | Spectrometer.js:285-292 | The loop returns ShiftSum, the sum of the shifted bytes. For lists of at most three bytes this is their big-endian value. |
| Combine.ShiftSumBigEndian | Spectrometer.js:288-290 | For at most three bytes, shiftBytes computes the big-endian value. |
| Combine.ShiftSumFourBytes | Spectrometer.js:289 | For four bytes, shiftBytes gives the big-endian value when the top byte is below 0x80. Otherwise it gives that value minus 2^32, which is negative. |
| Combine.BigEndianOfReverse | Spectrometer.js:55-57 | Reversing a list and reading it big-endian gives the list read little-endian. |
| Configuration.ParseConfigurationData | Spectrometer.js:133-141 | Field i (scan type, repeats, exposure time, start and end wavelength, for i = 0 to 4) is byte i of the reply when the reply has more than i bytes, and undefined otherwise. So all five fields are defined if and only if the reply has at least five bytes. |
| Configuration.ParseConfigurationBytes | Spectrometer.js:133-141 | Parsing the five bytes of a configuration, followed by anything, gives that configuration back. |
| Configuration.ConfigurationBytesOfParse | Spectrometer.js:133-141 | Only the first five reply bytes matter, and they can be recovered from the parsed fields. |
| Reassembly.FirstStage | Spectrometer.js:218-237 | The first stage resolves at the first report after which the buffer passes the listener's test (FirstStageDone, lines 227-232): it holds a header and the declared number of bytes after it. If no prefix of the stream does that, it does not resolve. |
| Reassembly.Continuation | Spectrometer.js:250-261 | The continuation loop stops at the first report count whose bytes reach what is owed. If no count does, it does not stop. |
| Reassembly.Receive | Spectrometer.js:214-265 | The reply consumes at most the reports available, and on success at least one. A failure consumes them all. The result is the first-chunk timeout if and only if no report arrives. |
| Reassembly.ReceiveSmallReply | Spectrometer.js:262-265 | Take any split into reports of a header followed by a payload of at most 60 bytes, and anything after it. The result is exactly that payload. |
| Reassembly.ReceiveLargeReply | Spectrometer.js:246-261 | For a declared length above 60, the result is every byte received after the header, in arrival order and never cut to the declared length. It holds at least 2·dataLength − 60 bytes. |
| Reassembly.ReceiveIgnoresLaterReports | Spectrometer.js:218-261 | Once a reply has resolved, reports that arrive later change neither its data nor the number of reports it consumed. |
| Reassembly.LargeReplyOverwaits | Spectrometer.js:232-261 | Suppose the reports carry exactly a header and a payload of more than 60 bytes. The reply then always ends in the continuation timeout. |
| Reassembly.ReceiveCorrected | Spectrometer.js:242-265 | The corrected reassembly's data has exactly the declared length. It never ends in the continuation timeout. |
| Reassembly.ReceiveCorrectedDeliversPayload | Spectrometer.js:242-265 | Take any header and payload, split into reports in any way, followed by anything. The corrected reassembly resolves with exactly the payload. |
| Reassembly.ReceiveCorrectedDiffersOnlyOnLarge | Spectrometer.js:246-265 | The as-written and corrected reassemblies differ only on replies that declare more than 60 bytes. |
| Bytes.Reverse | Spectrometer.js:55 | The reversed list has the same length, and its element i is the original's element length − 1 − i. |
| Transfer.RequestFrames | Spectrometer.js:51-68 | SizeRequest is exactly C0 00 03 00 2D 00 followed by the file number, and ChunkRequest is exactly C0 00 02 00 2E 00. |
| Transfer.FileSizeIsLittleEndian | Spectrometer.js:51-57 | For a size reply of at most three bytes, FileSize (the reply reversed, then combined) is the reply read little-endian, and it is below 256 to the power of the reply's length. |
| Transfer.DownloadFrom | Spectrometer.js:62-73 | The chunk loop consumes at most the reports available. Its other properties are stated by DownloadStopsAtSize. |
| Transfer.FetchFile | Spectrometer.js:43-79 | getFile after the guard consumes at most the reports available. Its properties are stated by DownloadStopsAtSize and EmptyFileNeedsNoChunk. |
| Transfer.DownloadStopsAtSize | Spectrometer.js:62-73 | A chunk is requested exactly while fewer than `size` bytes have been read. Success returns every chunk in order, at least `size` bytes, after one request per chunk. A failure comes while still short of `size`, after one more request than chunks received. |
| Transfer.EmptyFileNeedsNoChunk | Spectrometer.js:57-73 | A size of zero or less, including a wrapped four-byte size, returns an empty file and sends no chunk request. |
| Driver.HidDevice.constructor | Spectrometer.js:18-20 | A device fresh from requestDevice is closed, has sent nothing, and holds its pending input reports. |
| Driver.HidDevice.Open | Spectrometer.js:27 | open() succeeds exactly when the device allows it, and the device is then open. |
| Driver.HidDevice.SendReport | Spectrometer.js:164 | sendReport succeeds exactly when the device is writable. It then logs the report id and bytes, and otherwise sends nothing. |
| Driver.HidDevice.NextInputReport | Spectrometer.js:221-224 | The next input event delivers the oldest pending report and removes it. With none pending, the wait ends without a report. |
| Driver.Spectrometer.constructor | Spectrometer.js:4-9 | A new driver keeps the vendor and product ids, has no device, and is not connected. |
| Driver.Spectrometer.Connect | Spectrometer.js:15-35 | No device found: the error, and not connected. Otherwise the first device is kept; the driver is connected exactly when open() succeeds, and fails with OpenFailed when it does not. Nothing else on the device changes. |
| Driver.Spectrometer.SendCommand | Spectrometer.js:150-170 | One write frame goes out under report id 0, and nothing is read. The result is the sendReport failure when the device rejects the frame. |
| Driver.Spectrometer.ReceiveCommand | Spectrometer.js:187-269 | A rejected read frame fails before anything is read. Otherwise exactly the read frame is sent, the result is Receive of the pending reports, and exactly the reports it used are consumed. |
| Driver.Spectrometer.AwaitResponse | Spectrometer.js:214-237 | The first-stage loop consumes exactly the reports FirstStage names and returns their bytes. When the stream runs out, the error is the timeout if no report came and the stall otherwise. |
| Driver.Spectrometer.ReadContinuation | Spectrometer.js:246-261 | The continuation loop appends exactly the reports Continuation names, whole and in order. It times out when they run out. |
| Driver.Spectrometer.GetFile | Spectrometer.js:43-79 | Refused with no I/O when not connected. The device stays open or closed as it was. Otherwise the result and the consumed reports are FetchFile's, and the frames sent are one size request followed by as many chunk requests as FetchFile counts. |
| Driver.Spectrometer.ReadChunks | Spectrometer.js:62-73 | The chunk loop's result, the reports it consumes and the chunk requests it sends are exactly DownloadFrom's, starting from no chunks read. |
| Driver.Spectrometer.PerformScan | Spectrometer.js:86-100 | Refused with no I/O when not connected. The device stays open or closed as it was. Otherwise exactly the frame 40 00 03 00 18 02 00 is sent and no input is read. |
| Driver.Spectrometer.GetConfiguration | Spectrometer.js:107-126 | Refused with no I/O when not connected. The device stays open or closed as it was. Otherwise exactly the frame C0 00 02 00 23 02 is sent, and the reply (or its failure) is parsed by parseConfigurationData. |

## Left out

- `navigator.hid.requestDevice` (lines 18-20): the browser's device chooser is not modelled. Connect receives the list of devices it resolved with, so a rejected chooser and the vendor/product filter are outside the model.
- `waitForResponse` (lines 175-178), the 10 s response timer (line 219) and the 5 s continuation timer (line 252): time is not modelled. A timer firing is the stream of pending reports running out.
- Driver.Spectrometer.AwaitResponse: in the code, the first report clears the only response timer (line 222). A reply that then never completes leaves the promise pending forever. The model ends that wait with the `Stalled` failure instead of not terminating.
- Listener accumulation: the code adds a new "inputreport" listener at lines 221 and 253 and never removes it. Stale listeners only settle promises that are already settled, so they are not modelled. Each report goes to the wait in progress.
- Driver.HidDevice.NextInputReport: the pending reports in `inbox` stand only for reports that arrive while a wait of `receiveCommand` is listening. In the code, a report that arrives while no such listener is attached goes only to stale listeners and is lost. That happens during the awaited `sendReport` and the 10 ms `waitForResponse` (lines 164-165, 206-208), and between commands. The model does not capture that loss: a report it holds is always delivered to the next wait.
- `hexify` (lines 276-278) and every `console.log`/`console.error` call: logging only.
- Driver.HidDevice.SendReport: whether `sendReport` rejects is fixed per device. A device that accepts some reports and rejects others is not modelled.
- Driver.Spectrometer.SendCommand, Driver.Spectrometer.ReceiveCommand: these require a device. Called without one, the JavaScript throws a TypeError on `this.device.sendReport`. The model leaves that out because every caller checks `isConnected` first.
- Driver.Spectrometer.GetFile, Driver.Spectrometer.PerformScan, Driver.Spectrometer.GetConfiguration: the group byte, command byte and file number are modelled as bytes. JavaScript numbers outside 0-255, which a Uint8Array would reduce modulo 256, are not modelled. The data-length byte's reduction is modelled (`Frame.ToUint8`).
- Driver.Spectrometer.ReadChunks: requires a writable device. The loop is reached only after getFile's size request was accepted, and whether a device accepts writes is fixed for its lifetime.
- Transfer.DownloadFrom: in the code the chunk loop may run forever if the device keeps sending empty chunks. In the model the stream of reports is finite, so the loop ends when the reports run out.
- The code raises no error for a header that never reaches 4 bytes: the first-stage wait stays unresolved. It raises none for a configuration reply shorter than five bytes either: the missing fields are `undefined`. The model follows this. `ParseConfigurationData` has no precondition and returns `None` for the missing fields.
- The user interface script that uses this class is not part of this model.

## Findings

| source | as written | input that shows it | evidently intended | confidence | as-written member | corrected member |
|---|---|---|---|---|---|---|
| Spectrometer.js:232-261 | The first stage already waits until all `dataLength` bytes after the header have arrived. For `dataLength > 60`, the loop then waits for `dataLength - 60` further bytes. | A reply whose header declares 100 bytes, sent as a 64-byte report (header and 60 bytes) then a 40-byte report. The first stage takes both reports. The loop then waits for 40 more bytes and hits the 5 s timeout. | Resolve with the declared payload once it has arrived, with no second wait for bytes already received. | high; not executed | Reassembly.LargeReplyOverwaits | Reassembly.ReceiveCorrected, Reassembly.ReceiveCorrectedDeliversPayload |

`Driver.Spectrometer.ReceiveCommand` keeps the as-written behaviour so that it models the
code faithfully. `Reassembly.ReceiveCorrectedDiffersOnlyOnLarge` shows that the corrected
reassembly gives the same results on every reply that declares at most 60 bytes. That
covers a 5-byte configuration reply and every size reply that
`Transfer.FileSizeIsLittleEndian` describes, but not the larger chunk replies of a file
download.
