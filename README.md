# lcdcanvas core in Dafny

A model of the device-facing core of lcdcanvas, a hardware monitor that renders
a theme to an image and pushes it to a small USB/serial LCD. The model covers:

- the RGB565 pixel codec (`image2rgb565_le`, written twice: `libs/lcds/_base.py`
  and `libs/lcds/base.py`), with the two copies proved equal;
- the serial partial-update driver `LCD_SN_QDTECH`:
  - the 10-byte command header;
  - the changed-region computation;
  - row-sliced extraction of the region bytes;
  - the bookkeeping of the port and of the last frame sent;
- the USB mass-storage driver `LCD_SN_WCH32`:
  - the 31-byte display and handshake blocks and the 32-byte brightness block;
  - brightness mapped onto 0..7;
  - transfers on a handle that can stop accepting writes;
- the second-screen registry `find_2nd_screen`, a cache keyed by monitor geometry,
  and the `LCD_2ndScreen` window life cycle;
- the display scheduler of `HardwareMonitorAPI`, as a sequential state machine:
  - the display loop with its re-checks and its error counter;
  - the three-attempt brightness retry;
  - `selectScreen` and `toggleDisplay`;
- the translator `I18n`: dotted keys with a fallback locale;
- the front end's helpers in `ui/src/plugins/utils.ts`:
  `extractFileNameWithoutExtension`, `formatDatetime`/`formatDate`/`formatTime`,
  `cachedFunc` and `throttle`;
- a slice of `sensors.py`:
  - `get_hardware` and the GPU fallback chain;
  - the CPU sensor classification and temperature-sensor priority;
  - the network interface filter, per-interface counter deltas and the
    last-valid speed cache.

One Dafny module per source file:

| module | file |
|---|---|
| `Common` | shared helpers (`common.dfy`) |
| `PixelCodec` | `pixel_codec.dfy` |
| `PixelCodecBase` | `pixel_codec.dfy` |
| `SnQdtech` | `sn_qdtech.dfy` |
| `SnWch32` | `sn_wch32.dfy` |
| `SecondScreen` | `second_screen.dfy` |
| `Monitor` | `monitor.dfy` |
| `I18n` | `i18n.dfy` |
| `Utils` | `utils.dfy` |
| `Sensors` | `sensors.dfy` |

Where the source changes state it is modelled as a class:

| class | source object |
|---|---|
| `SnQdtech.QdtechPanel` | the QDTECH driver |
| `SnWch32.Wch32Panel` | the WCH32 driver |
| `SecondScreen.Screen2` | one second screen |
| `SecondScreen.ScreenRegistry` | the second-screen cache |
| `Monitor.HardwareMonitor` | the display scheduler |
| `I18n.Translator` | the translator |
| `Utils.CachedFunction` | one `cachedFunc` wrapper |
| `Utils.Throttled` | one `throttle` wrapper |
| `Sensors.Net` | the network sensor |

Each method of a class is proved against a specification function, and the
source's promises are proved about that function.

Transports have no model of their own:

- The QDTECH serial port is the log of byte blocks written to it, with a count
  of the reads and writes it still completes; past that count a transfer
  raises although the port still reports open.
- The WCH32 USB handle is a budget of writes it still accepts and a budget of
  reads and resets it still completes; a write past its budget returns 0 and
  raises `ConnectionError`, and a read or reset past its budget raises.
- The monitor's device outcomes, the renderer's image sources and the user
  interface thread's actions come from an input sequence of cycles.

A few behaviours of the code are easy to miss. The model follows the code:

- The codec's "little-endian" name notwithstanding, the byte swap puts the
  high byte of every word first.
- The WCH32 brightness block is 32 bytes, not 31. Bytes 12-13 of all three
  blocks are 0x00 0x00, then 0x10 0xCD.
- The QDTECH region's lower edge is `max_y + 2` exclusive: one margin row below
  the change, two above it.
- The region's right edge loses column `max_x` when it is a multiple of 8 (see
  Findings). The driver sends that region as computed, so such a change can
  produce a header whose x end is x start - 1 and an empty data block.
- `display` on the QDTECH panel is only ever given native-size frames, because
  it resizes first; the region is computed at 320x480.
- A WCH32 device whose serial number reads as the empty string counts as
  connected, but `open` does not adopt it.
- QDTECH `read` on a closed port calls a reopening helper that the class does
  not define, so that call raises.

## Model

| member | source | states |
|---|---|---|
| PixelCodec.Quantize | libs/lcds/_base.py:67-69 | r >> 3, g >> 2 and b >> 3 are the unique 5/6/5-bit values whose ranges of 8, 4 and 8 input values contain the channels |
| PixelCodec.Word | libs/lcds/_base.py:71 | the packed word is below 65536, and its bit fields 15-11, 10-5 and 4-0 are the quantized red, green and blue |
| PixelCodec.Encode | libs/lcds/_base.py:62-73 | the encoded frame has exactly two bytes per pixel (2·w·h for a well-formed image) |
| PixelCodec.EncodeAt | libs/lcds/_base.py:71-73 | pixel i occupies bytes 2i and 2i+1; after the byte swap they are the word's high byte then its low byte |
| PixelCodec.PixelRoundTrip | libs/lcds/_base.py:67-73 | decoding a pixel's two bytes recovers exactly its quantized channels |
| PixelCodec.FrameRoundTrip | libs/lcds/_base.py:62-73 | decoding the whole encoded frame gives the sequence of quantized pixels, in row-major order |
| PixelCodec.WhiteAndBlack | libs/lcds/_base.py:67-73 | white encodes to FF FF and black to 00 00 |
| PixelCodec.AllWhite | libs/lcds/_base.py:62-73 | an all-white image encodes to all-0xFF bytes |
| PixelCodec.PixelLocal | libs/lcds/_base.py:66-73 | replacing one pixel changes only that pixel's two bytes of the frame |
| PixelCodecBase.Encode | libs/lcds/base.py:56-67 | the per-pixel encoder of `base.py` produces two bytes per pixel |
| PixelCodecBase.SameAsUnderscoreBase | libs/lcds/base.py:56-67 | `base.image2rgb565_le` equals `_base.image2rgb565_le` on every image |
| PixelCodecBase.FrameRoundTrip | libs/lcds/base.py:60-67 | decoding the `base.py` encoding recovers the quantized pixels |
| PixelCodecBase.HighByteFirst | libs/lcds/base.py:67 | high byte first after the byte swap |
| SnQdtech.Command | libs/lcds/SN_QDTECH.py:137-151 | the header is 10 bytes long |
| SnQdtech.CommandRoundTrip | libs/lcds/SN_QDTECH.py:137-151 | reading the header back gives x_start, x_end, y_start, y_end modulo 2^16 (high byte first), then cmd and data modulo 256 |
| SnQdtech.BoxOfNone | libs/lcds/SN_QDTECH.py:160-165 | there is no bounding box exactly when every 16-bit word is unchanged |
| SnQdtech.BoxOfCovers | libs/lcds/SN_QDTECH.py:167-169 | the bounding box contains the (x, y) of every changed word, with y = i / width and x = i % width |
| SnQdtech.BoxOfTight | libs/lcds/SN_QDTECH.py:167-169 | each side of the box is attained by a changed word |
| SnQdtech.DiffRegion | libs/lcds/SN_QDTECH.py:153-179 | the corrected region: a non-empty rectangle inside the panel with x1 and x2 multiples of 8 |
| SnQdtech.DiffRegionAsWritten | libs/lcds/SN_QDTECH.py:153-179 | the region as the code computes it: a rectangle inside the panel with x1 and x2 multiples of 8, at least one row high, possibly zero columns wide |
| SnQdtech.NoDifferenceMeansEqual | libs/lcds/SN_QDTECH.py:160-165 | two frames of the same length have all words equal iff they are equal |
| SnQdtech.DiffRegionResetAndSkip | libs/lcds/SN_QDTECH.py:154-165 | with no previous frame, or one of another length, the region is the whole panel; otherwise there is no region iff the frames are equal |
| SnQdtech.AsWrittenWithinIntended | libs/lcds/SN_QDTECH.py:172-177 | the region as written exists exactly when the corrected one does, shares its x1, y1 and y2 and never reaches further right; the two agree on a reset and whenever the rightmost changed column is not a multiple of 8 |
| SnQdtech.DiffRegionCovers | libs/lcds/SN_QDTECH.py:167-177 | the corrected region contains every changed pixel |
| SnQdtech.DiffRegionTight | libs/lcds/SN_QDTECH.py:172-177 | the region is no larger than alignment and margins demand: some changed pixel lies in its first 8-column block, one in its last, one within its top three rows and one within its bottom two |
| SnQdtech.SinglePixelRegion | libs/lcds/SN_QDTECH.py:167-177 | a single changed pixel yields its 8-column block and rows y-2 .. y+1, clamped to the panel |
| SnQdtech.AsWrittenMissesAlignedColumn | libs/lcds/SN_QDTECH.py:173 | as written, when the rightmost changed column is a multiple of 8, some changed pixel lies outside [x1, x2) |
| SnQdtech.AsWrittenSinglePixelAtColumn8 | libs/lcds/SN_QDTECH.py:172-173 | as written, one changed pixel at x = 8 gives x1 = x2 = 8, a zero-width region |
| SnQdtech.Row | libs/lcds/SN_QDTECH.py:189-192 | a row slice holds (x2 - x1)·2 bytes |
| SnQdtech.RegionBytesRow | libs/lcds/SN_QDTECH.py:188-192 | row k of the region bytes is row y1 + k of the frame, from byte 2·x1 for 2·(x2 - x1) bytes |
| SnQdtech.RegionBytesLength | libs/lcds/SN_QDTECH.py:182-186 | the region holds (x2 - x1)·2·(y2 - y1) bytes |
| SnQdtech.FullRowsArePrefix | libs/lcds/SN_QDTECH.py:181-194 | the full-width rows 0 .. y-1 are the first y·640 bytes of the frame |
| SnQdtech.WholeFrameRegion | libs/lcds/SN_QDTECH.py:181-194 | for the whole panel the region bytes are the frame itself |
| SnQdtech.GetRegionData | libs/lcds/SN_QDTECH.py:181-194 | the buffer the row loop fills equals the rows of the rectangle, one after the other |
| SnQdtech.BrightnessLevel | libs/lcds/SN_QDTECH.py:131-132 | the request is clamped to [0, 100] and mapped to floor(255·b / 100), within 0..255 |
| SnQdtech.BrightnessMonotone | libs/lcds/SN_QDTECH.py:131-132 | a brighter request never maps to a lower level |
| SnQdtech.ClearCommand | libs/lcds/SN_QDTECH.py:125 | the clear header starts FF FF (x_start = 0xFFFF) and carries cmd 102 with data 0xFF |
| SnQdtech.QdtechPanel.constructor | libs/lcds/SN_QDTECH.py:22-25 | no port, no previous frame, nothing written |
| SnQdtech.QdtechPanel.Open | libs/lcds/SN_QDTECH.py:42-53 | port unchanged when no port matches, open (with the transfers it will complete) after a successful open, forgotten when opening raises |
| SnQdtech.QdtechPanel.Write | libs/lcds/SN_QDTECH.py:70-76 | the block is logged iff the port is open and still completes transfers, using one of them; a closed port raises instead of reopening, and an open port past its transfers raises too |
| SnQdtech.QdtechPanel.Read | libs/lcds/SN_QDTECH.py:78-82 | an open port that still completes transfers returns at most `length` waiting bytes, using one transfer; otherwise the call raises |
| SnQdtech.QdtechPanel.Handshake | libs/lcds/SN_QDTECH.py:84-94 | the log gains command 200 with data 3 when one transfer is left, then up to 16 bytes are read; it succeeds iff two transfers are left |
| SnQdtech.QdtechPanel.Display | libs/lcds/SN_QDTECH.py:96-122 | with the region as the code computes it: the header (cmd 197, inclusive x2 - 1 and y2 - 1) if the port takes one write, then exactly the region bytes (empty for a zero-width region) if it takes a second; success iff both went out; without a region: nothing written and success; the frame becomes the previous frame unless a write raised, so a header sent before a refused data block keeps the old frame |
| SnQdtech.QdtechPanel.Clear | libs/lcds/SN_QDTECH.py:124-128 | when the write goes through, the clear header is written and the previous frame forgotten, so the next display is full-panel; when it raises, nothing changes |
| SnQdtech.QdtechPanel.Close | libs/lcds/SN_QDTECH.py:60-68 | clears the panel when the port takes the write (a raising clear is swallowed), then always leaves no port and no previous frame |
| SnQdtech.QdtechPanel.SetBrightness | libs/lcds/SN_QDTECH.py:130-135 | writes command 110 with the mapped level when the port takes the write, and raises otherwise |
| SnQdtech.StaticSceneSendsOnce | libs/lcds/SN_QDTECH.py:104-122 | two identical frames on a fresh open panel: one full-panel header followed by the encoded frame itself, and nothing for the second |
| SnQdtech.UnpluggedMidFrame | libs/lcds/SN_QDTECH.py:96-122 | a port that still reports open but completes only one transfer takes the full-panel header, refuses the frame, and the frame is not remembered |
| SnWch32.LE32Value | libs/lcds/SN_WCH32.py:213-216 | the four length bytes, read little-endian, give the length modulo 2^32 |
| SnWch32.LE16Value | libs/lcds/SN_WCH32.py:227-234 | each coordinate's two bytes, read little-endian, give it modulo 2^16 |
| SnWch32.InitDisplayBlock | libs/lcds/SN_WCH32.py:201-238 | the display header is 31 bytes long |
| SnWch32.InitDisplayLayout | libs/lcds/SN_WCH32.py:201-236 | signature 55 53 42 43, tag DE AD BE EF, length (x1-x0)·(y1-y0)·2 little-endian, 00 00 10 CD, four zeros, 06 12, then x0, y0, x1-1, y1-1 as 16-bit little-endian and a final 0 |
| SnWch32.FullPanelHeader | libs/lcds/SN_WCH32.py:201-236 | the header for (0, 0, 480, 320) is the fixed block with length 307200 |
| SnWch32.FullPanelLayout | libs/lcds/SN_WCH32.py:143-149 | that block is a command block for 307200 bytes with opcode 6 |
| SnWch32.HandshakeLayout | libs/lcds/SN_WCH32.py:103-137 | the handshake block is 31 bytes, announces 5 bytes, opcode 2, and ends in zeros |
| SnWch32.BrightnessLevel | libs/lcds/SN_WCH32.py:156-157 | the request is clamped to [0, 100] and mapped to floor(7·b / 100), within 0..7 |
| SnWch32.BrightnessMonotone | libs/lcds/SN_WCH32.py:156-157 | a brighter request never maps to a lower level |
| SnWch32.BrightnessBlock | libs/lcds/SN_WCH32.py:158-193 | the brightness block is 32 bytes long |
| SnWch32.BrightnessLayout | libs/lcds/SN_WCH32.py:158-193 | a command block with bytes 20-22 = 06 01 01 and the level at byte 24; two brightness blocks differ only at byte 24 |
| SnWch32.RunSpec | libs/lcds/SN_WCH32.py:92-100 | the transfers that take place are a prefix of the plan, all of it exactly on success; a non-empty plan succeeds iff the handle exists and takes all of its writes and all of its reads and resets, each transfer using one unit of the matching budget |
| SnWch32.RunAppend | libs/lcds/SN_WCH32.py:143-149 | running two plans in turn is running their concatenation |
| SnWch32.ClearPayloadAllFF | libs/lcds/SN_WCH32.py:151-153 | `clear` sends a 307200-byte frame that is all 0xFF |
| SnWch32.StripNul | libs/lcds/SN_WCH32.py:47 | removing NULs leaves no NUL and never lengthens the serial |
| SnWch32.EmptySerialConnectedNotAdopted | libs/lcds/SN_WCH32.py:43-66 | a device whose serial reads empty is reported connected but is not adopted by `open` |
| SnWch32.Wch32Panel.constructor | libs/lcds/SN_WCH32.py:21-24 | no handle, nothing transferred |
| SnWch32.Wch32Panel.Open | libs/lcds/SN_WCH32.py:55-70 | the handle is adopted when the serial is unreadable or matches after NUL removal; otherwise it is unchanged |
| SnWch32.Wch32Panel.Transfer | libs/lcds/SN_WCH32.py:92-100 | one write, read or reset behaves as the transfer semantics says: any transfer raises without a handle, a write that returns 0 raises, and a read or reset raises once the device stops answering |
| SnWch32.Wch32Panel.Perform | libs/lcds/SN_WCH32.py:143-149 | the loop performs the plan's transfers in order until one raises, exactly as the plan's run says |
| SnWch32.Wch32Panel.Display | libs/lcds/SN_WCH32.py:143-149 | header, frame, then a 13-byte acknowledgement read |
| SnWch32.Wch32Panel.Clear | libs/lcds/SN_WCH32.py:151-153 | displays the white image |
| SnWch32.Wch32Panel.SetBrightness | libs/lcds/SN_WCH32.py:155-195 | the brightness block, then the acknowledgement read |
| SnWch32.Wch32Panel.Handshake | libs/lcds/SN_WCH32.py:102-141 | the handshake block, a 5-byte read, then the acknowledgement read |
| SnWch32.Wch32Panel.Close | libs/lcds/SN_WCH32.py:75-90 | a no-op without a handle; otherwise clear and reset with errors swallowed, and the handle always ends as None |
| SnWch32.DisplayComplete | libs/lcds/SN_WCH32.py:143-149 | a handle that takes at least two writes and one read takes the whole display plan, two writes and one read of budget |
| SnWch32.DisplayStopsAtFrame | libs/lcds/SN_WCH32.py:143-149 | a handle that accepts one write takes the header, then the frame write raises and no acknowledgement is read |
| SnWch32.DisplayFailsAtAck | libs/lcds/SN_WCH32.py:143-149 | a handle that takes both writes but no read receives the header and the whole frame, then the acknowledgement read raises and the display fails |
| SnWch32.CloseOnDeadDevice | libs/lcds/SN_WCH32.py:75-90 | when no write is accepted, `close` transfers nothing (clear raises at once, and reset is skipped) |
| SnWch32.CloseResetRaises | libs/lcds/SN_WCH32.py:75-90 | when the clear completes and the reset raises, `close` has sent the whole white frame and read its acknowledgement |
| SecondScreen.DigitRun | libs/lcds/SecondScreen.py:134 | the longest run of leading digits, ending at a non-digit or at the end |
| SecondScreen.ParseCacheKey | libs/lcds/SecondScreen.py:134 | the key `w-h-x-y` parses back to the geometry, negative coordinates included |
| SecondScreen.CacheKeyInjective | libs/lcds/SecondScreen.py:134-135 | two monitors share a cache key iff their geometries are equal, so a cache keyed by geometry is the same cache |
| SecondScreen.DestroyedAtMostOnce | libs/lcds/SecondScreen.py:87-110 | in a history where windows are created only when none exists and shown or destroyed only while one exists, destroys number the creations, less one while a window is open: each window is destroyed at most once |
| SecondScreen.Screen2.constructor | libs/lcds/SecondScreen.py:47-53 | name "2ndScreen #(index+1)", the given geometry, no window |
| SecondScreen.Screen2.UniqueId | libs/lcds/SecondScreen.py:71-72 | the unique id is the name |
| SecondScreen.Screen2.Read | libs/lcds/SecondScreen.py:97-99 | `read` returns None |
| SecondScreen.Screen2.Display | libs/lcds/SecondScreen.py:105-110 | a window is created only when none exists, then the image is shown |
| SecondScreen.Screen2.Close | libs/lcds/SecondScreen.py:87-91 | the window is destroyed once if it exists; a second close does nothing |
| SecondScreen.FirstIndex | libs/lcds/SecondScreen.py:133-141 | the position among non-primary monitors of the first one with a geometry |
| SecondScreen.CacheStep | libs/lcds/SecondScreen.py:134-141 | one lookup of the loop keeps the invariant of the result list and the cache |
| SecondScreen.ScreenRegistry.constructor | libs/lcds/SecondScreen.py:124 | the cache starts empty |
| SecondScreen.ScreenRegistry.GetOrCreate | libs/lcds/SecondScreen.py:135-140 | a cached geometry returns its screen unchanged; a new one creates a fresh screen named after its position and caches it |
| SecondScreen.ScreenRegistry.Find2ndScreens | libs/lcds/SecondScreen.py:127-142 | [] for a single monitor; otherwise one screen per non-primary monitor in order, each the cached screen of its geometry; old entries are kept and new ones are fresh and named after the first position of their geometry |
| SecondScreen.SameMonitorsSameScreens | libs/lcds/SecondScreen.py:134-141 | asking twice with the same monitors returns the same screen objects the second time |
| Monitor.CountSnoc | app/hardware_monitor/monitor.py:311 | appending an operation adds one alert iff it is an alert |
| Monitor.InterferenceQuiet | app/hardware_monitor/monitor.py:330-337 | a stop or a deselect by the user interface thread adds no alert; if the loop condition still holds after it, the same screen is selected |
| Monitor.RecoverOutcome | app/hardware_monitor/monitor.py:299-314 | the error branch, under a stop or a deselect before its lock, either continues with the loop condition and the same screen, or exits because a re-check fails or with the alert last; it adds at most one alert, only when it exits |
| Monitor.ShowOutcome | app/hardware_monitor/monitor.py:281-317 | the same for fetching and showing the image, error branch included |
| Monitor.CycleRechecks | app/hardware_monitor/monitor.py:271-317 | under a stop or a deselect before one lock, a cycle that continues keeps the loop condition with the same screen; a cycle that exits does so because a re-check after a lock failed or with the alert last; it adds at most one alert, only when it exits |
| Monitor.ReopenOutcome | app/hardware_monitor/monitor.py:274-280 | the same for a reopen that opens the device, returns with it still closed, or raises |
| Monitor.ShownFrameResets | app/hardware_monitor/monitor.py:290-317 | a shown frame continues with error count 0, whatever it was, and the show is the last operation |
| Monitor.BlankKeepsCount | app/hardware_monitor/monitor.py:274-285 | an empty image source continues with the count untouched and shows nothing, also after a reopen that left the device closed |
| Monitor.FailureCounts | app/hardware_monitor/monitor.py:274-314 | a failing cycle (a broken image, a display error, a reopen that raises, or a frame for a device the reopen left closed) closes the device; below the limit it continues with count + 1, at the limit it exits with the alert last |
| Monitor.FailingRun | app/hardware_monitor/monitor.py:271-319 | from count c on a closed device, 11 - c failing cycles give exactly that many close/reopen/close rounds, one alert and the display off |
| Monitor.ElevenFailuresStop | app/hardware_monitor/monitor.py:262-319 | eleven consecutive failures right after the start stop the loop with one alert, the device closed and the display off |
| Monitor.UnpluggedKeepsRetrying | app/hardware_monitor/monitor.py:271-285 | while the device stays unplugged and the theme yields no image, each cycle closes and reopens it and continues: no error counted, no stop, the device still closed |
| Monitor.LoopEnds | app/hardware_monitor/monitor.py:262-319 | with stops and deselects as the only interference: once the loop has stopped, the display is off and the device closed; while it runs the same screen is selected; at most one alert per run |
| Monitor.StopDisplayAlerts | app/hardware_monitor/monitor.py:330-337 | `__stop_display` turns the display off, closes an open device, keeps the selection and adds no alert |
| Monitor.DisplayLoopGuard | app/hardware_monitor/monitor.py:266-268 | the loop started while already displaying changes nothing |
| Monitor.BrightnessOutcome | app/hardware_monitor/monitor.py:239-260 | k leading failed attempts give k closes; a success before the third failure then adds an open (unless it is the first attempt on an open device) and the level, and leaves the device open; three failures end in a close and one alert, the device closed; selection, display flag and brightness unchanged |
| Monitor.BrightnessNeedsScreen | app/hardware_monitor/monitor.py:242-244 | without a selected screen nothing happens |
| Monitor.SelectScreenSwaps | app/hardware_monitor/monitor.py:103-130 | re-selecting the current screen returns true and changes nothing; otherwise the previous driver is closed first, the connected driver of that id (or none) installed, its saved brightness (default 100) applied, and the result says whether there is one |
| Monitor.ToggleOffStops | app/hardware_monitor/monitor.py:192-200 | `toggleDisplay(False)` always leaves the display off and the device closed |
| Monitor.HardwareMonitor.constructor | app/hardware_monitor/monitor.py:32-38 | no screen selected, display off, brightness 100, nothing logged; `connected` stands for the screens `loadScreens` finds (line 51) |
| Monitor.HardwareMonitor.StopDisplay | app/hardware_monitor/monitor.py:330-337 | the object's new state is `__stop_display`'s effect |
| Monitor.HardwareMonitor.RunCycle | app/hardware_monitor/monitor.py:272-317 | one pass through the loop body, with its three lock re-checks, moves the object as one cycle step says |
| Monitor.HardwareMonitor.DisplayLoop | app/hardware_monitor/monitor.py:262-319 | the `while` loop over the supplied cycles ends in the state the loop function gives |
| Monitor.HardwareMonitor.SetBrightness | app/hardware_monitor/monitor.py:235-260 | the `for` retry loop ends in the state the brightness function gives |
| Monitor.HardwareMonitor.SelectScreen | app/hardware_monitor/monitor.py:103-130 | state and result as `selectScreen`'s effect |
| Monitor.HardwareMonitor.ToggleDisplay | app/hardware_monitor/monitor.py:192-199 | on runs the display loop, off stops the display |
| I18n.Split | app/i18n.py:39 | `split(".")` gives at least one part, and no part contains a dot |
| I18n.JoinSplit | app/i18n.py:39 | joining the parts with dots gives the key back |
| I18n.SplitJoin | app/i18n.py:39 | splitting dot-free parts joined by dots gives the parts back |
| I18n.FindInLast | app/i18n.py:27-35 | the entry at a path is the last component's entry in the table the other components lead to through non-empty tables, or None |
| I18n.FindInCompose | app/i18n.py:27-35 | looking up p.q is looking up q in the non-empty table p names |
| I18n.TranslateKnown | app/i18n.py:37-49 | with both locales known, `t` never raises and returns the locale's entry, else the fallback's, else the key; a falsy entry is still returned |
| I18n.UnknownLocaleRaises | app/i18n.py:19-28 | after switching to a locale the catalogue lacks, every `t` raises `AttributeError` |
| I18n.SampleFallback | app/i18n.py:37-49 | a key missing in the current locale comes from the fallback; a path naming a table returns the table |
| I18n.SampleUnknownLocale | app/i18n.py:26-28 | the same key raises once the locale is unknown |
| I18n.SampleThroughText | app/i18n.py:31-33 | a path running on through a text is not found, so the key is returned |
| I18n.SampleThroughEmptyTable | app/i18n.py:31-33 | a path running on through an empty table is not found either |
| I18n.SampleFalsy | app/i18n.py:29-49 | an empty text or empty table at the last component is returned as it is |
| I18n.Translator.constructor | app/i18n.py:8-17 | requires both locales in the catalogue; the fallback defaults to the locale |
| I18n.Translator.SetLocale | app/i18n.py:19-20 | the locale is set without any check |
| I18n.Translator.FindResult | app/i18n.py:22-35 | the loop over the key's components gives the lookup function's result, raising on an unknown locale |
| I18n.Translator.T | app/i18n.py:37-49 | `t` is the translation function, and it never raises while the locale is known |
| I18n.Translator.Call | app/i18n.py:51-52 | calling the object is `t` |
| Utils.TailAfterSep | ui/src/plugins/utils.ts:80 | the match of `[^\\/]+$`: the longest suffix without a separator, preceded by a separator when shorter than the path |
| Utils.StripExtension | ui/src/plugins/utils.ts:83 | removes exactly the extension `\.[^/.]+$` when there is one, and otherwise keeps the name |
| Utils.ExtensionUnique | ui/src/plugins/utils.ts:83 | at most one position starts the extension |
| Utils.ExtractFileNameWithoutExtension | ui/src/plugins/utils.ts:78-86 | null iff the path is empty or ends in a separator |
| Utils.ExtractFileNameShape | ui/src/plugins/utils.ts:80-83 | the result is the last segment, or the last segment without its extension, and has no separator |
| Utils.ExtractDoubleExtension | ui/src/plugins/utils.ts:83 | "a.tar.gz" gives "a.tar" |
| Utils.ExtractDotFile | ui/src/plugins/utils.ts:80-83 | "themes/.json" gives "" |
| Utils.ExtractTrailingDot | ui/src/plugins/utils.ts:83 | "file." keeps its dot |
| Utils.ExtractWindowsPath | ui/src/plugins/utils.ts:80-83 | a backslash separates directories too |
| Utils.Pad2 | ui/src/plugins/utils.ts:95-110 | `padStart(2, "0")`: two characters or more, the original at the end, zeros in front |
| Utils.Hour12 | ui/src/plugins/utils.ts:108 | `h % 12 \|\| 12` is in 1..12 and agrees with h modulo 12 |
| Utils.NoTokenUnchanged | ui/src/plugins/utils.ts:112-115 | text without `%` is unchanged |
| Utils.ReplaceAppend | ui/src/plugins/utils.ts:112-115 | the global replace works piecewise across a cut that does not follow a `%` |
| Utils.Token | ui/src/plugins/utils.ts:112-115 | `%K` becomes the map's value when K is in the pattern and mapped, stays when unmapped, and stays literal when K is outside the pattern |
| Utils.KeysDisjoint | ui/src/plugins/utils.ts:118-124 | `formatDate` leaves `%H` alone and `formatTime` leaves `%Y` alone |
| Utils.EveryKeyMapped | ui/src/plugins/utils.ts:95-124 | every key of either pattern has a value in the map |
| Utils.TwoDigits | ui/src/plugins/utils.ts:98-108 | a field below 100 renders as exactly two digits whose value is the field |
| Utils.ClockFields | ui/src/plugins/utils.ts:108-109 | `%p` is AM iff the hour is below 12; `%I` is two digits valued (h mod 12) or 12 |
| Utils.TokenThen | ui/src/plugins/utils.ts:112-115 | a token, a separator and the rest become the value, the separator and the rest replaced |
| Utils.ThreeTokens | ui/src/plugins/utils.ts:112-115 | three tokens joined by two separators become the three values so joined |
| Utils.DateMapFields | ui/src/plugins/utils.ts:95-110 | the map's values for Y, m, d, H, M, S, I and p |
| Utils.DefaultTimeFormat | ui/src/plugins/utils.ts:105-124 | `%H:%M:%S` gives the padded hours, minutes and seconds joined by colons |
| Utils.TwelveHourFormat | ui/src/plugins/utils.ts:106-124 | `%I:%M %p` gives the padded 12-hour hour, the minutes and AM/PM |
| Utils.DefaultDateFormat | ui/src/plugins/utils.ts:97-120 | `%Y-%m-%d` gives the year, the month counted from 1 and the day |
| Utils.AfternoonTime | ui/src/plugins/utils.ts:105-107 | 14:05:07 formats as "14:05:07" |
| Utils.AfternoonTwelveHour | ui/src/plugins/utils.ts:106-109 | 14:05 formats as "02:05 PM" |
| Utils.AfternoonDate | ui/src/plugins/utils.ts:97-99 | 9 March 2024 (`getMonth` 2) formats as "2024-03-09" |
| Utils.CacheWindow | ui/src/plugins/utils.ts:37-46 | a second call within the cache time returns the first result without calling `func`; afterwards `func` is called again and its result stored |
| Utils.RaiseStoresNothing | ui/src/plugins/utils.ts:44-46 | when `func` raises, the error reaches the caller and the cache is unchanged, so a later call with the same key calls `func` again |
| Utils.CacheKeysIndependent | ui/src/plugins/utils.ts:37-46 | a call with another key neither reads nor changes an entry |
| Utils.CachedFunction.constructor | ui/src/plugins/utils.ts:27-28 | the cache starts empty |
| Utils.CachedFunction.Call | ui/src/plugins/utils.ts:30-47 | the stored result iff the key is present and younger than the cache time; otherwise `func` is called once and (result, now) stored, or, when it raises, nothing stored and the error returned |
| Utils.CachedFunction.ClearCache | ui/src/plugins/utils.ts:49-51 | `clearCache` empties the cache |
| Utils.ThrottleConsistent | ui/src/plugins/utils.ts:9-19 | `timeout` is set exactly when arguments wait, and a queued callback implies it, after a call and after either kind of firing; a normal firing leaves every set `timeout` with its callback queued and nothing waiting |
| Utils.BurstKeepsLast | ui/src/plugins/utils.ts:10-12 | calls only replace the waiting arguments, `func` is not called, and a callback is queued iff one was or `timeout` was not set |
| Utils.BurstCallsOnce | ui/src/plugins/utils.ts:9-19 | any burst from idle results in exactly one call of `func`, with the last arguments |
| Utils.RaiseWedges | ui/src/plugins/utils.ts:13-17 | once `func` has raised, `timeout` stays set with no callback queued whatever calls follow, so `func` is never called again |
| Utils.WedgedStaysWedged | ui/src/plugins/utils.ts:10-12 | calls on a set `timeout` with no queued callback queue none |
| Utils.Throttled.constructor | ui/src/plugins/utils.ts:6-7 | nothing waiting, no timer, no callback queued |
| Utils.Throttled.Call | ui/src/plugins/utils.ts:9-19 | stores the arguments and, if `timeout` is not set, sets it and queues the callback |
| Utils.Throttled.Elapse | ui/src/plugins/utils.ts:13-17 | calls `func` once with the latest arguments and dequeues the callback; then resets `timeout` and the arguments unless `func` raised |
| Sensors.Matches | app/hardware_monitor/sensors.py:111-117 | the matches pass the filter and are no more than the devices |
| Sensors.MatchesMembers | app/hardware_monitor/sensors.py:112-117 | the matches are devices of the list, and every device that passes is among them |
| Sensors.FirstMatch | app/hardware_monitor/sensors.py:112-115 | no match iff no device passes; otherwise the first match is the first passing device in enumeration order |
| Sensors.GetHardwareAsWritten | app/hardware_monitor/sensors.py:103-118 | all: every match in order; otherwise the first match, or `[]` when there is none |
| Sensors.GetHardwareLoop | app/hardware_monitor/sensors.py:111-118 | the loop with its early return gives the as-written result |
| Sensors.MatchesAt | app/hardware_monitor/sensors.py:112-117 | one step of the scan: a passing device is appended, another is skipped |
| Sensors.GetHardware | app/hardware_monitor/sensors.py:103-115 | the corrected lookup: None iff no device passes, otherwise the first passing device |
| Sensors.AsWrittenIgnoresAmd | app/hardware_monitor/sensors.py:217-225 | with only an AMD card, the default GPU as written is `[]`, while the corrected chain finds the AMD card |
| Sensors.DefaultGpuPriority | app/hardware_monitor/sensors.py:215-240 | the corrected chain is the first NVIDIA card; without one the first AMD card; without either the first device with a "GPU Core" load sensor; otherwise the first Intel device; none exactly when no device is of any of these |
| Sensors.Store | app/hardware_monitor/sensors.py:152-153 | `d[name] = s` in an insertion-ordered dict: names stay unique, an existing name keeps its place and other entries are untouched, and a new name is appended |
| Sensors.PriorityWins | app/hardware_monitor/sensors.py:156-165 | the first name starting with "Core Average", "Core Max" or "CPU Package" is chosen |
| Sensors.LastCoreWins | app/hardware_monitor/sensors.py:156-167 | without such a name, the last name starting with "Core" is chosen, or nothing |
| Sensors.ClassifyCpuSensors | app/hardware_monitor/sensors.py:134-167 | the loop keeps the last "CPU Total" load, the "Core #" clocks without "Effective" in scan order, and the temperature table of the scan; the temperature sensor is the priority scan's choice over that table |
| Sensors.LastLoadIsLast | app/hardware_monitor/sensors.py:137-143 | a load sensor is kept iff some sensor is a "CPU Total" load, and it is the last of them |
| Sensors.FrequencySensors | app/hardware_monitor/sensors.py:144-150 | every listed sensor is a "Core #" clock without "Effective" from the input, and every such input sensor is listed |
| Sensors.TemperatureTable | app/hardware_monitor/sensors.py:151-153 | the table's names are unique, each entry is a temperature sensor under its own name, and every temperature sensor's name is in it |
| Sensors.TemperatureTableLast | app/hardware_monitor/sensors.py:151-153 | a name read by several temperature sensors holds the last of them |
| Sensors.LaterCoreChosen | app/hardware_monitor/sensors.py:156-167 | temperatures "Core #1" then "Core #2", no priority name: "Core #2" is chosen |
| Sensors.PickTemperatureLoop | app/hardware_monitor/sensors.py:156-167 | the `for`/`break` loop gives the priority scan's result |
| Sensors.AnyOccurs | app/hardware_monitor/sensors.py:454 | true iff some word occurs in the name, both lower-cased |
| Sensors.FilterInterfaceKeeps | app/hardware_monitor/sensors.py:436-454 | an interface is kept iff none of the ten virtual-interface words occurs in its name, ignoring case |
| Sensors.DockerDropped | app/hardware_monitor/sensors.py:446-454 | "Docker0" is dropped |
| Sensors.FilterIgnoresCase | app/hardware_monitor/sensors.py:454 | names equal up to case are filtered alike |
| Sensors.Delta | app/hardware_monitor/sensors.py:476 | the delta is never above the current counter, and it is curr - prev when the counter did not go down |
| Sensors.PrefixedAppend | app/hardware_monitor/sensors.py:471-477 | appending to `valid_stats` one delta at a time is the same as the whole list |
| Sensors.DeltasAt | app/hardware_monitor/sensors.py:472-477 | one step of the loop over the current interfaces |
| Sensors.CalculateSpeedBounds | app/hardware_monitor/sensors.py:470-481 | the rate is never negative; it is 0 when no interface is kept, or when `time_diff` is at most 0 and nothing raised |
| Sensors.NoneKept | app/hardware_monitor/sensors.py:471-480 | when no interface is kept, `valid_stats` is empty |
| Sensors.MissingInterfaceRaises | app/hardware_monitor/sensors.py:474 | a kept interface missing from the previous sample raises `KeyError` |
| Sensors.CounterResetExample | app/hardware_monitor/sensors.py:476 | 100 after 40 counts 60, and 5 after 4000 (a reset) counts 5 |
| Sensors.Validated | app/hardware_monitor/sensors.py:489-500 | a rate in [0, 1e9] is taken (truncated), another keeps the last valid value, so the cache stays in [0, 1e9] |
| Sensors.Net.constructor | app/hardware_monitor/sensors.py:431-450 | both samples are the first reading, `time_diff` 0, last valid speeds 0 |
| Sensors.Net.Update | app/hardware_monitor/sensors.py:456-468 | the previous current sample becomes the last one; the new reading and the elapsed time are taken |
| Sensors.Net.CalculateSpeedLoop | app/hardware_monitor/sensors.py:470-481 | the loop over the interfaces gives the speed function's result, including the `KeyError` |
| Sensors.Net.UploadSpeed | app/hardware_monitor/sensors.py:483-491 | a `KeyError` (no result, cache kept) when a kept interface is missing from the last sample; otherwise the validated upload rate over the kept interfaces, and the cache stays in [0, 1e9] |
| Sensors.Net.DownloadSpeed | app/hardware_monitor/sensors.py:493-500 | the same for the received bytes |
| Sensors.SumLoop | app/hardware_monitor/sensors.py:481 | `sum(valid_stats)` |

## Left out

- Threads, locks and sleeps are not modelled: `DisplayLock`, the drivers' `mutex`, `threading.Thread`, loop pacing and the one-second retry pause. The scheduler is sequential. The user interface thread acts at most once per cycle, just before one of the loop's three lock acquisitions.
- `Monitor.Interference`: only a stop (`toggleDisplay(False)`) and the selection of a screen without a driver are modelled as the user interface thread's step while the loop runs. Selecting another connected screen (app/hardware_monitor/monitor.py:103-130) and `setScreenSettings` with its `__set_brightness` (167-172) also take the display lock then; they are not. So "the same screen is selected" in `InterferenceQuiet`, `RecoverOutcome`, `CycleRechecks` and `LoopEnds` holds under stops and deselects only.
- `Monitor.LcdOpen`: `is_open` is modelled as "opened and not closed since" for every driver. `LCD_2ndScreen.is_open` always returns true (libs/lcds/SecondScreen.py:83-85), so for a second screen the real loop never reopens it and `__stop_display` always calls `close`. The model does not capture that difference.
- `Monitor.BrightnessFrom`: a failed attempt logs only its `close`; whether an `open` returned before the error is not recorded. A successful attempt leaves the device open, as `set_brightness` raises on a closed device in both serial drivers.
- `Sensors.AnyOccurs` (and so `Sensors.FilterInterface`) lowers only A-Z, through `Common.Lower`. Python's `str.lower` is Unicode-aware: U+212A KELVIN SIGN lowers to `k`, so the source drops "DOC\u212AER" as a Docker interface, while the model keeps it.
- Transports are not modelled: `serial`, `pyusb` and port enumeration. The QDTECH port is a log of written blocks and a transfer count. The WCH32 handle is two budgets, and the `_ctx` check in `close` is taken as true. Acknowledgement and handshake contents are abstract.
- `SnQdtech.QdtechPanel.Write` and `SnWch32.Wch32Panel.Transfer`: a transfer either completes or raises having sent nothing; a block partly sent before the error is not captured.
- PIL is not modelled: `resize`, `rotate`, `convert`, `Image.new`. Images arrive at native size as RGB triples, and the virtual-screen rotation choice in the display loop is not modelled.
- The renderer's `evaluate_js` and base64 decoding are inputs: each cycle says whether the image source is empty, usable or broken.
- `SecondScreen.Screen2.Display` records that an image was shown but not the webview HTML, the base64 text or the taskbar hiding.
- Wall-clock time is a parameter everywhere: `Date.now()`, `time.time()` and `setTimeout` (the throttle's timer firing is the `Elapse` method).
- `Sensors.CalculateSpeed`: division by `time_diff` is on Dafny reals, not doubles. `int(raw_speed)` is floor, which equals truncation on the accepted range.
- `SnQdtech.BrightnessLevel` and `SnWch32.BrightnessLevel`: `int(b / 100 * 255)` and `int(b / 100 * 7)` are modelled as integer floors of b·255/100 and b·7/100. The model does not capture double rounding, and gives no meaning to a fractional request.
- The rest of `CPU.__init__` is not modelled: the motherboard fan scan (app/hardware_monitor/sensors.py:170-180) and the `get_hardware` result passed as hardware.
- The other sensor classes are not modelled: GPU status reading, RAM, Disk with its 60-second cache, volume, weather. They read foreign libraries (LibreHardwareMonitor, psutil, COM).
- `Utils.DateMap`: month and weekday names from `toLocaleString` are opaque strings carried by the date. Years are integers rendered by `toString`.
- `formatDatetime` with an arbitrary regular expression is not modelled: the model covers patterns of the form `%(k1|k2|...)` with single-character keys, which is what `formatDate` and `formatTime` pass.
- `sleep`, `getSystemTheme` and `setupThemeChangeListener` in utils.ts are not modelled: they are a busy-wait and browser APIs.
- `cachedFunc`'s `JSON.stringify(args)` is not modelled: the key is taken as the argument text.
- Settings persistence is not modelled: `settings.get_screen_settings` is the `saved` brightness parameter of `selectScreen`, and `set_monitor_settings` is not recorded.
- The message catalogue's text is not part of the model; a small sample catalogue exercises the lookup.
- `libs/lcds/__init__.py` and `find_connected_screens` are not part of this model; the connected screens are a set of ids.
- Device handshakes are not modelled beyond the blocks and reads they perform, and neither is logging.

## Findings

| source | as written | input that shows it | evidently intended | confidence | as-written member | corrected member |
|---|---|---|---|---|---|---|
| libs/lcds/SN_QDTECH.py:173 | `x2 = min(width, ((max_x + 7) // 8) * 8)` rounds `max_x` itself up, so a rightmost changed column that is a multiple of 8 falls outside [x1, x2) | one changed pixel at x = 8 (any row) gives x1 = x2 = 8, a zero-width region, and the change is never sent | round the column after `max_x` up: `((max_x + 8) // 8) * 8`, so the rectangle covers every changed pixel | not executed | SnQdtech.AsWrittenSinglePixelAtColumn8 | SnQdtech.DiffRegionCovers |
| app/hardware_monitor/sensors.py:118 | `get_hardware(all=False)` returns the empty list `res` when nothing matches, not `None` as its doc comment at line 109 says; the GPU fallback at lines 219 and 238 tests `hw is None`, so it never runs (the same `[]` reaches `mb.SubHardware` at line 172 when there is no motherboard; that fan scan is not part of this model) | a machine whose only GPU is an AMD card: the default GPU is `[]` | return `None` when nothing matches, so the chain falls through to AMD, then a "GPU Core" load sensor, then Intel | not executed | Sensors.AsWrittenIgnoresAmd | Sensors.DefaultGpuPriority |
