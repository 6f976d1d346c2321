# Model of an underwater robot's control program

The program steers an underwater robot from a small board computer. This project models the
parts of it that carry state through loops or over long runs, and proves what they keep:

- **LCD rasteriser** (`LineGeometry`, `CircleGeometry`, `EllipseGeometry`, `Framebuffer`, `Display`, `Lcd`).
  Lines and circles are first defined by what they should be: in each column or row the pixel closest to the true
  curve. Ellipses are the closest pixels of the rows that lie on the steep side of the curve and of the columns that lie on its flat
  side; this can leave rows or columns empty, and a theorem says when. The drawing loops, which only add to error terms, are proved to
  paint exactly these pixels, through the rotating coordinate map into the byte buffer, and the refresh to put exactly the buffer on the panel.
- **Asynchronous logger** (`AsyncRing`, `AsyncLog`). A ring buffer refines a bounded byte queue; loggers
  and the output thread are interleaved steps over it. No accepted byte is lost or reordered on its way to the output port, no wakeup is lost, nothing deadlocks.
- **Log records** (`TagFilter`, `Record`, `RecordParser`). Five slots stand for a bounded map of tag levels, a record
  is built piece by piece in a fixed buffer, and level and tag are read back from it.
- **Servo frame** (`SoftServo`). Pulse widths are sorted with their pins, turned into differences and waited for.
- **Control** (`Filter`, `Stability`, `Pid`, `Propellers`, `Depth`, `Setpoint`, `SpeedBuffer`). The low-pass filter and when it keeps bounded inputs
  bounded, the controller, the depth setpoint with the clamp that feeds back into it, the propellers' thrusts, and the slew limiter.
- **Devices** (`Bits32`, `Gpio`, `Nodes`, `Pca9685`, `SoftPwm`). Pins packed into registers, extension nodes in a list, pulse
  channels of four registers, and lamps and buzzer pulsed by counting ticks.

What the source changes step by step is a class or a loop here, proved against a specification; what the
specification means is proved in lemmas beside it. Code that is pure arithmetic is a function. Log text is `seq<char>`,
registers of the pin controller are sequences of 32 bits, floating-point values are reals.

Where the code does not do what it or its comments promise, the code is modelled as it is, and a lemma says exactly
when the promise holds:

- an ellipse with both radii zero never returns (`EllipseGeometry.ZeroRadiiLoopForever`), and flat ones have holes in their outline
  (`EllipseGeometry.OutlineIsUnbrokenIff`, `EllipseGeometry.FlatEllipseHasGap`);
- clearing the display before an orientation is chosen clears nothing (`Lcd.Lcd.Clear`);
- an empty put into an empty ring fills it with bytes nobody logged (`AsyncRing.Ring.PutLog`); no record is empty
  (`RecordParser.RecordsAreBounded`), so records cannot trigger it;
- records below debug level are put out directly and can overtake older ones (`AsyncLog.OutputIsInOrderIff`);
- levels are read back with colours on, and otherwise only by accident (`RecordParser.LevelRoundTrip`, `RecordParser.LevelWithoutColor`); tags
  only with colour and level in front of them, below 16 characters and without spaces, and otherwise by accident or when empty
  (`RecordParser.TagRoundTrip`); line numbers up to four characters (`RecordParser.LineNumberIsWhole`);
- the spike filter is not a median behind two equal values (`Filter.DespikeIsMedianIff`);
- nothing in the repository calls `PID_Init` (applications/PID.c:50-84), so the program starts with a zero controller, whose dive gate stays open: the depth setpoint
  is the plain sum of stick moves and has no bound (`Setpoint.UnloadedFollowsStick`, `Setpoint.UnloadedRunsAway`). Behind `PID_Init` it has one
  (`Setpoint.SetpointDoesNotRunAway`), and `Setpoint.SetpointIsBoundedIff` says for which controllers it has;
- nothing holds the setpoint when rising in four-axis mode (`Setpoint.SetpointStaysInWaterIff`, `Setpoint.RisesAddUp`), and the six-axis dive gate compares
  with 450 an output that is clamped to 300 (`Setpoint.SixAxisFollowsButtons`); the six-axis routine `AUV_Depth_Control` has no caller, though: in
  that mode the propeller thread (user/DeviceThread.c:51-54) calls `ROV_Depth_Control`, which then leaves the setpoint alone;
- a pointer is tested where its value is meant, so the error of the left propeller is compensated in both directions and that of the right one never
  (`Propellers.GivenIsIntendedIff`, `Propellers.WrongErrorCompensated`); as shipped both errors are zero (applications/pwmDevices.c:35), and it makes no difference;
- a slew range of zero or less never comes to rest (`SpeedBuffer.RangeMustBePositive`);
- pull settings off and down are the same (`Gpio.OffAndDownAreAlike`);
- setting the pulse frequency rewrites the mode register unchanged, so it neither puts the chip to sleep nor wakes it
  (`Pca9685.Driver.PWMSetFreq`; a local variable hides the one that holds the sleep bit);
- a soft pulse is HIGH one tick too long in every period below full duty, as long as period times duty fits 32 bits; beyond that it is HIGH
  too short, and can be so even at full duty (`SoftPwm.ShareIsExactIff`, `SoftPwm.OneTickTooMany`, `SoftPwm.WrappedDuty`);
- pull settings of more than two bits reach other pins; the one caller masks them (`Gpio.PinsDoNotInterfereIff`);
- the port stops at a terminator inside a chunk of log text and loses the rest of the chunk (`Record.PortShowsAllIff`).

## Model

| member | source | states |
|---|---|---|
| LineGeometry.NearestIffInBand | lib/WiringNP/devLib/lcd128x64.c:314-353 | the reference line: the drawn row of a column is the one whole number within half a pixel of the exact quotient, and conversely |
| LineGeometry.LineTrail | lib/WiringNP/devLib/lcd128x64.c:330-351 | a line has max(dx,dy)+1 points |
| LineGeometry.TurnFromPoint | lib/WiringNP/devLib/lcd128x64.c:337-349 | from any point but the last, one turn of the two sign tests on the error term leads to the next reference point, with the error term again at its closed form |
| LineGeometry.LineTurn | lib/WiringNP/devLib/lcd128x64.c:330-351 | the end test holds at the last point only, so the unbounded loop stops, and stops there; before it every turn keeps point and error term in step with the reference line |
| LineGeometry.TurnsFollowLine | lib/WiringNP/devLib/lcd128x64.c:322-351 | at every loop head up to the last point the loop is on the reference line with its error term in closed form |
| LineGeometry.ErrorIsSmall | lib/WiringNP/devLib/lcd128x64.c:337-349 | the doubled error term is at most three times the longer axis, so it fits 32 bits for lines of up to 715827882 steps |
| LineGeometry.TrailEnds | lib/WiringNP/devLib/lcd128x64.c:314-353 | a line starts at its first end point and stops at its second, for all integer end points |
| LineGeometry.TrailIsConnected | lib/WiringNP/devLib/lcd128x64.c:339-349 | consecutive points differ by at most one in each axis and by exactly one along the longer |
| LineGeometry.TrailIsAccurate | lib/WiringNP/devLib/lcd128x64.c:314-353 | every point is at most half a pixel from the ideal segment along the shorter axis |
| LineGeometry.CloserThanHalfIsDrawn | lib/WiringNP/devLib/lcd128x64.c:314-353 | conversely every grid point strictly closer than half a pixel is drawn |
| LineGeometry.HorizontalTrail | lib/WiringNP/devLib/lcd128x64.c:466-467 | a horizontal line, as filled shapes use it, is the whole span |
| LineGeometry.VerticalTrail | lib/WiringNP/devLib/lcd128x64.c:409-410 | a vertical line is the whole span |
| Geometry.AbsMaxMin | lib/WiringNP/devLib/lcd128x64.c:316-328 | sizes, larger and smaller numbers |
| LineGeometry.RoundedInNumbers | lib/WiringNP/devLib/lcd128x64.c:330-351 | the row of a column is the exact quotient rounded, a half going back towards the start |
| LineGeometry.LineInNumbers | lib/WiringNP/devLib/lcd128x64.c:314-353 | point k of a line is k pixels along the longer axis and at most half a pixel off the ideal line, as inequalities between coordinates |
| CircleGeometry.ArcIsFunction | lib/WiringNP/devLib/lcd128x64.c:420-445 | a column of an octant has one pixel |
| CircleGeometry.ArcIsNearest | lib/WiringNP/devLib/lcd128x64.c:420-445 | that pixel satisfies -y1 <= x1*x1+y1*y1-r*r <= y1 and no other row of the column is as close to the true circle |
| CircleGeometry.MidpointStep | lib/WiringNP/devLib/lcd128x64.c:422-430 | the sign of the midpoint term picks the row of the next column |
| CircleGeometry.WalkStart | lib/WiringNP/devLib/lcd128x64.c:400-405 | the closed forms hold when the loop is entered |
| CircleGeometry.WalkTurn | lib/WiringNP/devLib/lcd128x64.c:422-430 | additions alone keep f = (x1+1)^2+y1^2-y1-r^2, ddF_x = 2*x1+1 and ddF_y = -2*y1, and no row is skipped |
| CircleGeometry.ArcEnds | lib/WiringNP/devLib/lcd128x64.c:420-420 | when the loop stops no octant pixel is left; its last pair may be the mirror image of a pixel already drawn |
| CircleGeometry.WalkDrawsCircle | lib/WiringNP/devLib/lcd128x64.c:420-445 | when the loop stops exactly the circle has been drawn, outlined or filled |
| CircleGeometry.DrawnGrows | lib/WiringNP/devLib/lcd128x64.c:431-444 | each turn adds exactly the eight images of one more column |
| CircleGeometry.OutlineInNumbers | lib/WiringNP/devLib/lcd128x64.c:398-446 | for a positive radius the outline is the offsets with -m <= u*u+v*v-r*r < m, m their larger distance |
| CircleGeometry.FilledInNumbers | lib/WiringNP/devLib/lcd128x64.c:462-476 | a filled circle is every row of the outline and what lies between |
| CircleGeometry.OddRadiiInNumbers | lib/WiringNP/devLib/lcd128x64.c:406-418 | radius zero is a point, a negative one four points, or a cross when filled |
| EllipseGeometry.RowPickIffClosest | lib/WiringNP/devLib/lcd128x64.c:498-514 | comparing two neighbouring columns finds the pixel with the smallest abs(b*b*x*x+a*a*y*y-a*a*b*b) of the whole row, and conversely |
| EllipseGeometry.SideStep | lib/WiringNP/devLib/lcd128x64.c:498-514 | each turn draws the closest pixel of its row and chooses the better of the two candidates for the next |
| EllipseGeometry.SideEnds | lib/WiringNP/devLib/lcd128x64.c:498-498 | when the first loop stops no steep pixel is left above |
| EllipseGeometry.RegistersTurn | lib/WiringNP/devLib/lcd128x64.c:500-513 | additions alone keep ellipseError = b*b*x*x+a*a*y*y-a*a*b*b and the change and stopping variables at their closed forms |
| EllipseGeometry.HeadsAreOnEllipse | lib/WiringNP/devLib/lcd128x64.c:484-514 | all closed forms hold at every head reached, for every number of turns |
| EllipseGeometry.TurnDrawsSidePixel | lib/WiringNP/devLib/lcd128x64.c:500-500 | the pixel drawn in turn n is the steep pixel of row n |
| EllipseGeometry.GapShrinks | lib/WiringNP/devLib/lcd128x64.c:498-514 | stoppingX - stoppingY shrinks in every turn, so both loops end for all radii but two zeros, negative ones included |
| EllipseGeometry.StopIsComplete | lib/WiringNP/devLib/lcd128x64.c:498-514 | once the loop has stopped all steep pixels have been drawn |
| EllipseGeometry.StopIsLast | lib/WiringNP/devLib/lcd128x64.c:498-514 | the pixel of the last turn is the last steep pixel; without a turn there is none |
| EllipseGeometry.LastSideExists | lib/WiringNP/devLib/lcd128x64.c:498-514 | for positive radii there is a last steep pixel |
| EllipseGeometry.LastSideIsLocal | lib/WiringNP/devLib/lcd128x64.c:498-514 | a steep pixel is the last one if and only if the next row has none |
| EllipseGeometry.SidesUpToLast | lib/WiringNP/devLib/lcd128x64.c:498-514 | the steep part fills every row and column between the axis and its last pixel and no other |
| EllipseGeometry.OutlineIsUnbrokenIff | lib/WiringNP/devLib/lcd128x64.c:478-541 | a fault: the outline leaves no row and no column within the radii empty if and only if the last steep and the last flat pixel are at most one row and one column apart |
| EllipseGeometry.FlatEllipseHasGap | lib/WiringNP/devLib/lcd128x64.c:478-541 | with radii 4 and 1 columns 3 and -3 stay empty |
| EllipseGeometry.EqualRadiiAreUnbroken | lib/WiringNP/devLib/lcd128x64.c:478-541 | with equal radii no row or column stays empty |
| EllipseGeometry.ZeroRadiiLoopForever | lib/WiringNP/devLib/lcd128x64.c:498-514 | a fault: with both radii zero the guard holds after any number of turns, so the call never returns |
| EllipseGeometry.RoundSide | lib/WiringNP/devLib/lcd128x64.c:478-541 | with equal radii the ellipse's steep pixels are the circle's octant pixels |
| EllipseGeometry.EqualRadiiDrawTheCircle | lib/WiringNP/devLib/lcd128x64.c:398-541 | the two curve algorithms agree: an ellipse with equal radii is the circle, pixel for pixel |
| EllipseGeometry.ResidueInNumbers | lib/WiringNP/devLib/lcd128x64.c:484-514 | how far a pixel is off the ellipse, as a polynomial in radii and coordinates |
| EllipseGeometry.SideInNumbers | lib/WiringNP/devLib/lcd128x64.c:484-514 | the steep half of an outline as inequalities between radii and coordinates |
| EllipseGeometry.OutlineInNumbers | lib/WiringNP/devLib/lcd128x64.c:478-541 | an outline is its steep half and that of the exchanged radii, in all four quadrants |
| EllipseGeometry.FilledInNumbers | lib/WiringNP/devLib/lcd128x64.c:462-476 | a filled ellipse is every row of the outline and what lies between |
| EllipseGeometry.FlatInNumbers | lib/WiringNP/devLib/lcd128x64.c:478-541 | with one radius zero only the centre and the two ends of the other axis are drawn |
| Framebuffer.PanelMapIsBijection | lib/WiringNP/devLib/lcd128x64.c:233-264 | for each orientation and any origin the coordinate map is invertible |
| Framebuffer.ScreenCoversPanel | lib/WiringNP/devLib/lcd128x64.c:196-264 | with the origin at zero the logical screen is mapped exactly onto the 128x64 panel |
| Framebuffer.NextOrientationIsQuarterTurn | lib/WiringNP/devLib/lcd128x64.c:237-263 | the next orientation turns the picture by a quarter turn and never mirrors it |
| Framebuffer.OrientationZeroIsUpright | lib/WiringNP/devLib/lcd128x64.c:237-244 | in orientation 0 the logical origin is panel cell (0,63), the top left; right goes right, and down lowers the panel row |
| Framebuffer.OriginsAreCorners | lib/WiringNP/devLib/lcd128x64.c:246-262 | the logical origin of orientations 1, 2 and 3 is the corner (0,0), (127,0) and (127,63) |
| Framebuffer.OriginIsAdded | lib/WiringNP/devLib/lcd128x64.c:237-238 | a point lands where the point moved by the origin would without one |
| Framebuffer.UnsetIsBelowPanel | lib/WiringNP/devLib/lcd128x64.c:239-239 | before an orientation is chosen the picture is upright, 64 rows too low |
| Framebuffer.PaintOne | lib/WiringNP/devLib/lcd128x64.c:294-305 | drawing a pixel writes the one cell it maps to, or nothing off the panel |
| Framebuffer.BufferShowsLastColour | lib/WiringNP/devLib/lcd128x64.c:294-305 | after any sequence of drawn pixel sets a visible logical pixel holds its last colour; off-screen points change nothing |
| Display.ColumnBit | lib/WiringNP/devLib/lcd128x64.c:142-148 | the packed byte has bit k set exactly when the k-th cell of the column is non-zero |
| Display.BitIsDigit | lib/WiringNP/devLib/lcd128x64.c:145-145 | bit k of a byte is its binary digit |
| Display.CommandsInNumbers | lib/WiringNP/devLib/lcd128x64.c:113-117 | the column and line commands are the bytes 0x40 and 0xB8 with the line or-ed in |
| Display.PageOpsInNumbers | lib/WiringNP/devLib/lcd128x64.c:133-149 | a page is its two commands and then 64 columns from right to left |
| Display.FeedHalf | lib/WiringNP/devLib/lcd128x64.c:134-150 | the bytes of one half fill the memory of its controller page by page, whatever it held before |
| Display.FeedUpdate | lib/WiringNP/devLib/lcd128x64.c:126-170 | the two halves do not disturb each other |
| Display.UpdateShowsBuffer | lib/WiringNP/devLib/lcd128x64.c:126-170 | after a refresh the panel shows exactly the non-zero cells of the buffer |
| Lcd.PanelShowsLastColour | lib/WiringNP/devLib/lcd128x64.c:126-305 | orientation map, buffer and refresh together: a pixel is lit exactly when its last colour is not zero as a byte |
| Lcd.FiguresInNumbers | lib/WiringNP/devLib/lcd128x64.c:314-541 | the pixels of a circle or an ellipse are those at an offset from the centre, those of a line its points |
| Lcd.Lcd.constructor | lib/WiringNP/devLib/lcd128x64.c:57-62 | the statics at program start: no orientation chosen yet, a screen of no size |
| Lcd.Lcd.SetOrientation | lib/WiringNP/devLib/lcd128x64.c:196-224 | the orientation modulo four, its screen size, the origin back at zero |
| Lcd.Lcd.OrientCoordinates | lib/WiringNP/devLib/lcd128x64.c:233-264 | the in-place rewriting computes the coordinate map |
| Lcd.Lcd.Plot | lib/WiringNP/devLib/lcd128x64.c:294-305 | one point: last position, and the buffer with that one logical pixel painted |
| Lcd.Lcd.DrawLine | lib/WiringNP/devLib/lcd128x64.c:314-353 | plots exactly the points of the reference line, in order, and terminates, for all end points as unbounded integers |
| Lcd.Lcd.NextPoint | lib/WiringNP/devLib/lcd128x64.c:337-349 | the two sign tests take one turn |
| Lcd.Lcd.LineTo | lib/WiringNP/devLib/lcd128x64.c:355-358 | the line from the last position |
| Lcd.Lcd.PlotFour | lib/WiringNP/devLib/lcd128x64.c:462-476 | the four mirror images of a point, or the spans between them |
| Lcd.Lcd.DrawCircle | lib/WiringNP/devLib/lcd128x64.c:398-446 | paints exactly the reference circle for every radius, negative ones included, and where the last position then is |
| Lcd.Lcd.WalkOctants | lib/WiringNP/devLib/lcd128x64.c:420-445 | the loop of the circle, proved against the octant walk |
| Lcd.Lcd.DrawEllipse | lib/WiringNP/devLib/lcd128x64.c:478-541 | paints exactly the reference ellipse for all radii but two zeros, and leaves the last position at the last flat pixel, or the last steep one if there is no flat one |
| Lcd.Lcd.DrawSides | lib/WiringNP/devLib/lcd128x64.c:484-514 | the first loop terminates with all steep pixels drawn |
| Lcd.Lcd.DrawCaps | lib/WiringNP/devLib/lcd128x64.c:516-540 | the second loop terminates with all flat pixels drawn |
| Lcd.Lcd.NextRow | lib/WiringNP/devLib/lcd128x64.c:501-513 | the additions of one turn, the same in both loops with the axes exchanged |
| Lcd.Lcd.Clear | lib/WiringNP/devLib/lcd128x64.c:627-634 | all cells get the colour; a fault: before an orientation is chosen no cell does |
| Lcd.Lcd.Update | lib/WiringNP/devLib/lcd128x64.c:126-170 | what goes over the bus is the page commands and packed columns of both halves |
| Lcd.Lcd.PackColumn | lib/WiringNP/devLib/lcd128x64.c:141-148 | eight cells of a column become one byte |
| Lcd.Lcd.Setup | lib/WiringNP/devLib/lcd128x64.c:663-670 | display on, start line, orientation 0 and a refresh; the clear in front has no effect the first time |
| AsyncRing.StretchSplits | lib/easylogger/src/elog_async.c:146-153 | a stretch of the buffer that goes round its end is two stretches |
| AsyncRing.Appended | lib/easylogger/src/elog_async.c:145-154 | writing behind the used stretch appends to the queue and leaves the rest of it alone |
| AsyncRing.PutIndices | lib/easylogger/src/elog_async.c:133-155 | index and flag arithmetic of a put; exactly the empty put into the empty ring breaks it |
| AsyncRing.GetIndices | lib/easylogger/src/elog_async.c:226-248 | index and flag arithmetic of a get |
| AsyncRing.Ring.GetBufUsed | lib/easylogger/src/elog_async.c:99-111 | two indices and two flags determine the length of the queue |
| AsyncRing.Ring.GetBufSpace | lib/easylogger/src/elog_async.c:118-120 | what remains of the buffer |
| AsyncRing.Ring.PutLog | lib/easylogger/src/elog_async.c:130-160 | a put appends exactly the first min(size, space) bytes, across the wrap, so either the whole log went in or the ring is full; the ring stays well formed if and only if the log or the queue is not empty |
| AsyncRing.Ring.GetLog | lib/easylogger/src/elog_async.c:222-254 | a get takes the first bytes in order, across the wrap: as many as asked for, or all there are |
| AsyncLog.StepKeepsInvariant | lib/easylogger/src/elog_async.c:257-306 | every atomic step of a logger or the output thread keeps mutual exclusion, byte conservation and the wakeup condition |
| AsyncLog.RunKeepsInvariant | lib/easylogger/src/elog_async.c:257-306 | so does every run |
| AsyncLog.NothingLostOrReordered | lib/easylogger/src/elog_async.c:257-306 | in every reachable state printed bytes, then the chunk in hand, then the ring are all accepted bytes in order |
| AsyncLog.NoLostWakeup | lib/easylogger/src/elog_async.c:264-300 | with no logger between put and post, a sleeping output thread and a filled ring mean a pending notice |
| AsyncLog.FinishingShrinksWork | lib/easylogger/src/elog_async.c:282-306 | a measure no step but starting a record can fail to lower |
| AsyncLog.FinishingRunIsBounded | lib/easylogger/src/elog_async.c:282-306 | once nobody starts a record every schedule is short |
| AsyncLog.BusyMeansPossible | lib/easylogger/src/elog_async.c:257-306 | no deadlock: lock holder, bytes in hand or a pending notice mean some thread can move |
| AsyncLog.StuckMeansAllPrinted | lib/easylogger/src/elog_async.c:282-306 | when nothing can move everything accepted has been printed |
| AsyncLog.EveryScheduleDelivers | lib/easylogger/src/elog_async.c:257-306 | from any reachable state, once nobody starts a record, every schedule ends with exactly the accepted bytes printed |
| AsyncLog.StepKeepsOrderIff | lib/easylogger/src/elog_async.c:257-306 | a step keeps the output in the order of logging if and only if it is not a direct record put out in front of pending bytes it does not commute with |
| AsyncLog.OutputIsInOrderIff | lib/easylogger/src/elog_async.c:257-306 | over every run the output is in the order of logging if and only if no direct record overtakes |
| AsyncLog.DifferentRecordsOvertake | lib/easylogger/src/elog_async.c:270-274 | a direct record that begins unlike the pending bytes overtakes them |
| AsyncLog.OvertakingHappens | lib/easylogger/src/elog_async.c:257-306 | a fault: a reachable run in which the later of two records is shown first |
| AsyncLog.SubmitGoesTwoWays | lib/easylogger/src/elog_async.c:257-276 | a record of debug or verbose level goes to the ring, whole or up to the ring being full; any other is shown at once |
| AsyncLog.CopyTakesWhatFits | lib/easylogger/src/elog_async.c:282-306 | the output thread takes 508 bytes at once, or all there are |
| TagFilter.TableKeys | lib/easylogger/src/elog.c:383-389 | the slots in use stand for the keys of a map |
| TagFilter.TableAt | lib/easylogger/src/elog.c:436-443 | a used slot holds the level of its key |
| TagFilter.TableSize | lib/easylogger/src/elog.c:402-413 | the map is full exactly when no slot is free |
| TagFilter.SetLevel | lib/easylogger/src/elog.c:372-415 | at most five keys |
| TagFilter.StoreInSlot | lib/easylogger/src/elog.c:391-413 | writing a slot updates one key |
| TagFilter.FreeSlot | lib/easylogger/src/elog.c:393-397 | freeing a slot removes its key completely |
| TagFilter.TagTable.SetDefault | lib/easylogger/src/elog.c:343-352 | the empty map |
| TagFilter.TagTable.Set | lib/easylogger/src/elog.c:372-415 | refines the map update: ALL removes, a known key changes, a new key takes a slot, a full table stays as it is |
| TagFilter.TagTable.Get | lib/easylogger/src/elog.c:425-447 | the mapped level, or ALL |
| TagFilter.FilterRemembersLastGranted | lib/easylogger/src/elog.c:372-447 | over every run a tag has the level it was last given with room for it, and a tag that is refused is at ALL |
| TagFilter.FilterRemembersLastSetting | lib/easylogger/src/elog.c:372-447 | over every run without a refusal a tag has the level it was last given |
| TagFilter.OtherTagsUntouched | lib/easylogger/src/elog.c:372-415 | a setting changes no other tag, a refused one changes none |
| TagFilter.SameKeyIff | lib/easylogger/src/elog.c:385-385 | two tags are taken for one if and only if they are equal or agree in their first 16 characters |
| TagFilter.SettingReadsBack | lib/easylogger/src/elog.c:372-447 | after a setting a tag has the level asked for, or level 5 if it was refused |
| Record.Logger.StrCpy | lib/easylogger/src/elog_utils.c:41-56 | the bounded append copies what fits and touches nothing else |
| Record.Logger.Add | lib/easylogger/src/elog.c:541-542 | one more piece: the buffer holds the text so far, clipped |
| Record.Logger.AddTagInfo | lib/easylogger/src/elog.c:550-559 | tag, filled up to eight characters when short, and a space |
| Record.Logger.AddRunInfo | lib/easylogger/src/elog.c:560-582 | time, process and thread in brackets, with only the separators needed |
| Record.Logger.AddPlaceInfo | lib/easylogger/src/elog.c:583-608 | file, function and line in parentheses, with only the separators needed |
| Record.Logger.AddHeader | lib/easylogger/src/elog.c:538-608 | the whole header, clipped to the buffer, for every level, format and origin |
| Record.Logger.AddMessage | lib/easylogger/src/elog.c:609-634 | for any result of vsnprintf the body is header and message clipped to 507 characters; an error takes all the room |
| Record.Logger.KeywordFound | lib/easylogger/src/elog.c:635-645 | the keyword filter searches the body up to its first terminator |
| Record.Logger.Seal | lib/easylogger/src/elog.c:648-655 | colour reset and newline always fit and always end the record |
| Record.Logger.Output | lib/easylogger/src/elog.c:509-668 | a record is put out exactly when switch, level, tag level, tag and keyword filters let it pass, and it is the header, message and end described here |
| Record.ClipTwice | lib/easylogger/src/elog_utils.c:41-56 | clipping piece by piece is clipping the whole |
| Record.RunPartIsList | lib/easylogger/src/elog.c:560-582 | the run part is a bracket, the enabled ones of time, process and thread in this order joined by blanks, and a bracket with a blank |
| Record.PlacePartIsList | lib/easylogger/src/elog.c:583-608 | the place part is file and function joined by a blank, the line behind a colon, in parentheses |
| Record.LettersAndColours | lib/easylogger/src/elog.c:122-140 | the letter and the colour of each level |
| Record.DecimalReadsBack | lib/easylogger/src/elog.c:600-605 | a printed line number reads back, its sign in front |
| Record.ContainsIff | lib/easylogger/src/elog.c:530-530 | the filters find a needle if and only if the text is something, the needle, and something more |
| Record.CTextEndsAtTerminator | lib/easylogger/port/elog_port.c:63-69 | what the port shows is the chunk up to its first terminator |
| RecordParser.RecordsAreBounded | lib/easylogger/src/elog.c:620-659 | every record has 1 to 512 characters and ends the line, behind the colour reset when colours are on; so no put is empty |
| RecordParser.PartsExample | lib/easylogger/src/elog.c:550-608 | tag, run and place part of a record, spelled out |
| RecordParser.RecordExample | lib/easylogger/src/elog.c:509-668 | a whole record with every part enabled, spelled out |
| Record.PortShowsAllIff | lib/easylogger/port/elog_port.c:63-69 | the port shows a chunk whole if and only if it holds no terminator |
| RecordParser.LineNumberIsWhole | lib/easylogger/src/elog.c:600-605 | the line number is shown whole if and only if it has at most four characters |
| RecordParser.FindLvl | lib/easylogger/src/elog.c:725-757 | the level whose colour string follows the escape start, or -1 when there is none |
| RecordParser.FindTag | lib/easylogger/src/elog.c:769-791 | the text up to the first space within 16 characters of the fixed place, or nothing |
| RecordParser.ColorsDiffer | lib/easylogger/src/elog.c:133-140 | colour strings are of one length and pairwise different, so none is a prefix of another |
| RecordParser.TagIsUnique | lib/easylogger/src/elog.c:769-791 | a record holds one tag |
| RecordParser.LevelRoundTrip | lib/easylogger/src/elog.c:538-791 | with colours on, the level found in a record is the level it was logged at and no other, for every format, origin and message |
| RecordParser.LevelIsInBody | lib/easylogger/src/elog.c:725-757 | neither clipping nor the end of a record decides which level is read |
| RecordParser.TagIsInBody | lib/easylogger/src/elog.c:769-791 | nor which tag is read |
| RecordParser.TagRoundTrip | lib/easylogger/src/elog.c:550-791 | for every format with the tag part, colours on or off: with colour and level in front the tag is read back if and only if it is shorter than 16 characters and has no space; with one of them only if it is empty; with neither only if what follows repeats it |
| RecordParser.TagAtWrongPlace | lib/easylogger/src/elog.c:776-787 | looking a few characters too far in, the space behind the tag comes too early for any tag but the empty one |
| RecordParser.TagAtRest | lib/easylogger/src/elog.c:776-787 | looking behind the tag, only a repetition is found |
| RecordParser.MemoryBehindRecord | lib/easylogger/src/elog.c:784-787 | what follows the record in memory matters only when the record shows no tag |
| RecordParser.LevelWithoutColor | lib/easylogger/src/elog.c:725-757 | with colours off a level is found if and only if the tag, or without tag part the rest, begins with that level's colour string |
| RecordParser.LevelInMessageOnly | lib/easylogger/src/elog.c:560-608 | the rest does so if and only if no other part is enabled and the message begins with it |
| RecordParser.ColorlessLevelExamples | lib/easylogger/src/elog.c:725-757 | so a plain tag loses its level and a tag that looks like a colour yields a wrong one |
| SoftServo.Swap | lib/WiringNP/wiringPi/softServo.c:113-114 | one exchange in both arrays keeps which pulses there are |
| SoftServo.SortDelays | lib/WiringNP/wiringPi/softServo.c:102-116 | the gapped sort leaves the delays ascending and every pulse with its pin |
| SoftServo.SortPass | lib/WiringNP/wiringPi/softServo.c:105-116 | one gap: entries a gap apart are in order |
| SoftServo.Sink | lib/WiringNP/wiringPi/softServo.c:106-116 | the innermost loop, with its break, puts one entry in order |
| SoftServo.AllOn | lib/WiringNP/wiringPi/softServo.c:120-129 | raises every pin in use and turns widths into differences from the last pin in use |
| SoftServo.AllOff | lib/WiringNP/wiringPi/softServo.c:133-140 | waits and lowers in turn |
| SoftServo.RunningSums | lib/WiringNP/wiringPi/softServo.c:120-140 | waiting out the differences lowers each pin exactly at its own width, unused pins anywhere |
| SoftServo.WaitsAreNatural | lib/WiringNP/wiringPi/softServo.c:127-138 | no wait is negative |
| SoftServo.FrameMeetsPulses | lib/WiringNP/wiringPi/softServo.c:99-140 | sort and differences together: falling edges are the pulses that were set |
| SoftServo.EdgesStandAtWaits | lib/WiringNP/wiringPi/softServo.c:125-139 | only waits take time, and a pin changes when the waits before it are over |
| SoftServo.EdgesInNumbers | lib/WiringNP/wiringPi/softServo.c:99-140 | pin -1 never changes; any other rises at zero as often as it is used and falls at its widths; no wait is negative |
| SoftServo.Servos.Write | lib/WiringNP/wiringPi/softServo.c:162-176 | sets every servo on the pin, and no other: to value + 1000 within -250..1250, to 750 below and to 2250 above |
| SoftServo.Servos.Frame | lib/WiringNP/wiringPi/softServo.c:99-140 | every pin in use rises at zero and falls at its own pulse width, all within 2250 of 8000 microseconds |
| Filter.Buffer.LowPass | applications/PID.c:254-269 | one output of the difference equation; the buffers remember the last two inputs and outputs |
| Filter.DifferenceEquation | applications/PID.c:254-269 | output n is b0 x(n) + b1 x(n-1) + b2 x(n-2) - a1 y(n-1) - a2 y(n-2), over whole sequences |
| Filter.Superposition | applications/PID.c:254-269 | over whole sequences mixing inputs and memories mixes outputs |
| Filter.SuperpositionFromSilence | applications/PID.c:254-269 | from zeroed buffers mixing inputs mixes outputs |
| Filter.OutputsAreBounded | applications/PID.c:254-269 | a level that one call cannot exceed is never exceeded |
| Filter.OutputsFromSilenceAreBounded | applications/PID.c:254-269 | if abs(a1)+abs(a2) < 1 every output is within (abs(b0)+abs(b1)+abs(b2)) max abs(x) / (1-abs(a1)-abs(a2)) |
| Stability.EnergyFalls | applications/PID.c:254-269 | without input, a quadratic form in the last two outputs never grows |
| Stability.CallKeepsEnergy | applications/PID.c:254-269 | one call keeps a level of it that the input cannot lift |
| Stability.OutputsKeepEnergy | applications/PID.c:254-269 | so do all calls, and the level bounds every output |
| Stability.StableOutputsAreBounded | applications/PID.c:254-269 | whenever abs(a2) < 1 and abs(a1) < 1 + a2, for every size of inputs there is one bound on the outputs of all sequences |
| Filter.DespikeIsMedianIff | applications/PID.c:190-202 | the spike filter is a median of three if and only if the two older values differ or the newest equals them; behind two equal ones any jump passes |
| Filter.MedianIsMiddle | applications/PID.c:190-202 | the median is the middle one, in whatever order the three come |
| Pid.CallsStayLimited | applications/PID.c:108-126 | output and integral are within their limits after any call from any state |
| Pid.ErrorInNumbers | applications/PID.c:89-97 | the error is the setpoint less the measured value, cut to its limit on either side |
| Pid.IntegralInNumbers | applications/PID.c:99-115 | the integral takes the scaled error unless it is separated and the error beyond the separation error on either side; then it is cut |
| Pid.OutputInNumbers | applications/PID.c:118-126 | the output is the sum of proportional term, integral and derivative term, cut on either side |
| Pid.IntegralAddsUp | applications/PID.c:180-252 | without limits and separation, over every run, the integral is its gain times all errors added up |
| Pid.RowsInNumbers | applications/PID.c:27-84 | which column of the table becomes which field, in its first and last row |
| Pid.PidController.constructor | applications/PID.c:17-17 | every field zero, as a static |
| Pid.PidController.Init | applications/PID.c:27-72 | the table row of a controller; the filtered derivative is left alone |
| Pid.PidController.PidControl | applications/PID.c:86-129 | one call: limited error, separated and limited integral, limited sum |
| Pid.PidController.LimitErr | applications/PID.c:91-97 | the error limit |
| Pid.PidController.Conclude | applications/PID.c:99-126 | integral and output from the error in place |
| Pid.PidController.Integrate | applications/PID.c:99-107 | the separated integral |
| Pid.PidController.LimitIntegral | applications/PID.c:109-115 | the integral limit |
| Pid.PidController.LimitOutput | applications/PID.c:123-126 | the output limit |
| Pid.PidController.PidControlDivLpf | applications/PID.c:180-252 | the same call with a despiked, low-passed derivative |
| Pid.PidController.DespikeDerivative | applications/PID.c:190-202 | the in-place assignments compute the spike filter |
| Pid.PidController.ShiftHistory | applications/PID.c:206-209 | the history moves by one |
| Pid.HistoryLooksBack | applications/PID.c:206-209 | entry k of a history shifted by one for every output is the output of k calls ago |
| Pid.RunFiltersDespiked | applications/PID.c:180-252 | over every run of calls filter memory and history are those of the despiked derivatives sent through the low-pass |
| Pid.HistoryIsFilterOutput | applications/PID.c:180-252 | over every run from a zeroed derivative entry k of the history is the low-pass output of k calls ago |
| Depth.DepthController.UpDown | user/PropellerControl.c:204-230 | clamps the controller output in place to 300 and sets the middle propellers by the branch that the test on the pointer picks |
| Depth.DepthController.constructor | applications/PID.c:17-17 | the statics at program start: nothing loaded |
| Depth.DepthController.Init | applications/PID.c:50-84 | the table row of the depth controller |
| Propellers.ThrustShift | user/PropellerControl.c:222-228 | adding an error changes a thrust unless it is zero, the propeller stands still, or one unit is lost in the fraction cut off |
| Propellers.TruncatedTowardZero | user/PropellerControl.c:222-228 | the fraction is cut off towards zero |
| Propellers.WholeOutputs | user/PropellerControl.c:220-230 | the thrusts given and meant, for every whole output, direction and error |
| Propellers.GivenIsIntendedIff | user/PropellerControl.c:220-230 | the thrusts given are those the test was meant to pick if and only if the output is not negative or neither error shows |
| Propellers.WrongErrorCompensated | user/PropellerControl.c:220-230 | a fault: at full rise with a left error of 10 the left propeller gets 290 for 300 |
| Depth.DepthController.DepthPidControl | user/Control.c:171-177 | setpoint and depth into the controller, one call, the clamp, and the thrusts of the first branch |
| Depth.DepthController.RovDepthControl | user/PropellerControl.c:74-95 | the stick moves the setpoint, diving only while the last output is below 300 |
| Depth.DepthController.AuvDepthControl | user/PropellerControl.c:38-61 | the button moves the setpoint, diving only while the last output is below 450 |
| Setpoint.ProportionalFollows | applications/PID.c:86-129 | a proportional controller answers with a multiple of the error, cut to its limit and then to 300, and keeps its tuning |
| Setpoint.ObeyStaysHeld | user/PropellerControl.c:74-95 | every command keeps the setpoint within one stick step of the depth at which the gate closes |
| Setpoint.ClosingGateHolds | user/PropellerControl.c:74-95 | for any proportional controller that can close the gate, over every run the setpoint stays within max(w, D+300/gain)+1.27, w being the first setpoint and D the deepest depth |
| Setpoint.OpenGateHoldsNothing | user/PropellerControl.c:74-95 | for any other, n full dives deepen it by 1.27 n |
| Setpoint.SetpointIsBoundedIff | user/PropellerControl.c:74-95 | the exact condition, for every proportional controller, setpoint and output: the setpoint is bounded over all legal runs if and only if the gain is positive and the output limit at least 300 (or the limit at most -300, which turns every answer into 300) |
| Setpoint.UnloadedFollowsStick | user/PropellerControl.c:74-95 | a fault: nothing calls PID_Init, and as the program starts, with the controller zero, over every run the output is zero and the setpoint the plain sum of stick moves |
| Setpoint.UnloadedRunsAway | user/PropellerControl.c:74-95 | so from program start no bound holds |
| Setpoint.SetpointDoesNotRunAway | user/PropellerControl.c:74-95 | behind PID_Init, in four-axis mode, if the depth never exceeds D the setpoint never exceeds max(0, D+600)+1.27, over every run |
| Setpoint.OutputIsClamped | user/PropellerControl.c:207-208 | the output is within 300 after every command |
| Setpoint.ObeyStaysBelowSurface | user/PropellerControl.c:76-93 | in four-axis mode a call leaves a natural setpoint natural if and only if the stick asks for no more rise than there is |
| Setpoint.SetpointStaysInWaterIff | user/PropellerControl.c:76-93 | over every run, with any controller, the setpoint stays natural if and only if no call asks for more; nothing in the code holds a rise back |
| Setpoint.RisesAddUp | user/PropellerControl.c:78-84 | a fault: without dives the setpoint moves up by the sum of all rises, with any controller and whatever the depths measured |
| Setpoint.SixAxisFollowsButtons | user/PropellerControl.c:38-65 | a fault: over every run in six-axis mode, with any controller, the setpoint is what the buttons alone give, independent of depth; the gate at 450 never closes |
| Setpoint.DivesAddUp | user/PropellerControl.c:53-58 | so n dives deepen it by 3 n |
| SpeedBuffer.Buffer | user/Control.c:59-76 | one call, and no value leaves 16 bits for a positive range |
| SpeedBuffer.NoOvershoot | user/Control.c:59-76 | the output lies between remembered value and target and moves unless they are equal |
| SpeedBuffer.OutputsAreClose | user/Control.c:59-76 | for arbitrary targets consecutive outputs differ by at most 2*(range-1), or 1 when range is 1 |
| SpeedBuffer.ConstantTargetIsReached | user/Control.c:59-76 | a constant target is reached after exactly max(0, abs(target-last)-(range-1)) stepping calls and kept |
| SpeedBuffer.RangeMustBePositive | user/Control.c:64-75 | a reached target is kept if and only if the range is positive |
| Bits32.MaskedIsField | lib/WiringNP/wiringPi/wiringPi.c:1529-1530 | clear by mask, or in: the field is set and every other bit of the word kept |
| Bits32.FieldAfterSet | lib/WiringNP/wiringPi/wiringPi.c:1377-1385 | a field reads back what was set; a field apart from it is unchanged |
| Gpio.Addresses | lib/WiringNP/wiringPi/wiringPi.c:1084-1097 | the address arithmetic bank*36+offset, reduced to the mapping, is nine words a bank |
| Gpio.AddressesInNumbers | lib/WiringNP/wiringPi/wiringPi.c:1084-1097 | the byte addresses of a pin, and the word an address stands for |
| Gpio.PlacesInNumbers | lib/WiringNP/wiringPi/wiringPi.c:1287-1291 | in which word, and at which bit, the fields of a pin begin |
| Gpio.PinBits | lib/WiringNP/wiringPi/wiringPi.c:1244-1542 | which bits of which word are the mode, the level and the pull of a pin |
| Gpio.PinsBroughtOut | lib/WiringNP/wiringPi/wiringPi.c:1058-1069 | the pins brought out |
| Gpio.ModesApart | lib/WiringNP/wiringPi/wiringPi.c:1370-1370 | mode fields of different pins do not overlap, nor do mode words meet data or pull words |
| Gpio.DataApart | lib/WiringNP/wiringPi/wiringPi.c:1449-1449 | nor do data bits |
| Gpio.PullsApart | lib/WiringNP/wiringPi/wiringPi.c:1522-1522 | nor do pull fields |
| Gpio.Port.Readl | lib/WiringNP/wiringPi/wiringPi.c:1084-1091 | reads one word |
| Gpio.Port.Writel | lib/WiringNP/wiringPi/wiringPi.c:1093-1097 | writes one word and no other |
| Gpio.Port.SetGpioMode | lib/WiringNP/wiringPi/wiringPi.c:1287-1416 | the three mode bits of one pin; PWM mode also sets the two PWM words |
| Gpio.Port.PwmDefaults | lib/WiringNP/wiringPi/wiringPi.c:1404-1411 | after the whole start-up sequence: enabled, gated, active high, cycle mode, period 1024, active 512 |
| Gpio.Port.PwmSetPeriod | lib/WiringNP/wiringPi/wiringPi.c:1204-1224 | sets the upper half of the period word |
| Gpio.Port.PwmSetAct | lib/WiringNP/wiringPi/wiringPi.c:1226-1242 | sets the lower half |
| Gpio.Port.PwmGetPeriod | lib/WiringNP/wiringPi/wiringPi.c:1180-1192 | reads the upper half |
| Gpio.Port.PwmGetAct | lib/WiringNP/wiringPi/wiringPi.c:1194-1202 | reads the lower half |
| Gpio.Port.PwmSetMode | lib/WiringNP/wiringPi/wiringPi.c:1139-1156 | bit 7 follows the mode, bit 5 is set, bit 8 is set in pulse mode only, every other bit and word is kept |
| Gpio.Port.PwmSetClk | lib/WiringNP/wiringPi/wiringPi.c:1158-1175 | four clock bits to bits 15 to 18, enable and gate set, the other control bits of both channels kept, everything else in the word cleared |
| Gpio.Port.PwmSetEnable | lib/WiringNP/wiringPi/wiringPi.c:1123-1137 | enable and gate go on or off together, every other bit and word is kept |
| Gpio.HalvesAreSeparate | lib/WiringNP/wiringPi/wiringPi.c:1204-1242 | setting the period keeps the active half and reads back, and the other way round |
| Gpio.Port.GetGpioMode | lib/WiringNP/wiringPi/wiringPi.c:1244-1285 | reads a pin's mode bits, or 0 for a pin that is not brought out |
| Gpio.Port.DigitalWrite | lib/WiringNP/wiringPi/wiringPi.c:1418-1471 | sets one data bit |
| Gpio.Port.DigitalRead | lib/WiringNP/wiringPi/wiringPi.c:1473-1514 | reads one data bit |
| Gpio.Port.PullUpDnControl | lib/WiringNP/wiringPi/wiringPi.c:1516-1542 | sets two pull bits; the bits of a wider setting are or-ed into the rest of the word |
| Gpio.WriteInBits | lib/WiringNP/wiringPi/wiringPi.c:1418-1471 | writing a level sets one bit of all |
| Gpio.SetModeInBits | lib/WiringNP/wiringPi/wiringPi.c:1287-1416 | input, output and PWM output set three bits of all to 0, 1 and 3, PWM output two words as well; any other mode sets nothing |
| Gpio.PullInBits | lib/WiringNP/wiringPi/wiringPi.c:1516-1542 | a pull setting sets two bits and ors what is wider into the bits above |
| Gpio.OperationTouchesOneField | lib/WiringNP/wiringPi/wiringPi.c:1287-1542 | any pin reads, after any operation, as if one field of its one pin had been set, if and only if no wide pull setting spills into it |
| Gpio.PinsDoNotInterfereIff | lib/WiringNP/wiringPi/wiringPi.c:1287-1542 | over every run a pin reads what was last set on it alone if and only if no pull setting spills into it |
| Gpio.PinsDoNotInterfere | lib/WiringNP/wiringPi/wiringPi.c:2101-2102 | so with pull settings masked to two bits, as the one caller masks them, after any operations on any pins every pin reads what was last set on it alone |
| Gpio.OffAndDownAreAlike | lib/WiringNP/wiringPi/wiringPi.c:299-299 | a fault: off and down become the same pull bits; only up differs |
| Gpio.WidePullReachesNeighbour | lib/WiringNP/wiringPi/wiringPi.c:1529-1530 | without the caller's mask the neighbour's field survives exactly when the extra bits add nothing to it |
| Nodes.FoundCovers | lib/WiringNP/wiringPi/wiringPi.c:1893-1903 | nothing is found exactly when no range covers the pin |
| Nodes.RegisteredInNumbers | lib/WiringNP/wiringPi/wiringPi.c:1939-1969 | a request goes through if and only if its base is at least 64 and its pins are free; then it is found for base <= pin < base + n, and elsewhere nothing changes |
| Nodes.AllRegisteredIffCompatible | lib/WiringNP/wiringPi/wiringPi.c:1939-1969 | a run of registrations goes through if and only if all bases are at least 64 and the ranges are pairwise disjoint, and then keeps them all |
| Nodes.FoundIsUnique | lib/WiringNP/wiringPi/wiringPi.c:1893-1969 | on every list a run can build, a range that covers a pin is the one found |
| Nodes.OrderDoesNotMatter | lib/WiringNP/wiringPi/wiringPi.c:1893-1969 | the order of registrations decides neither whether they go through nor what a pin finds |
| Nodes.NodeList.FindNode | lib/WiringNP/wiringPi/wiringPi.c:1893-1903 | walks the list to the first node that covers the pin |
| Nodes.NodeList.NewNode | lib/WiringNP/wiringPi/wiringPi.c:1939-1969 | prepends a node, or the program exits because of its base or an overlap |
| Pca9685.Driver.WriteReg16 | drivers/pca9685.c:82-83 | a word goes out low byte first (section 5.5.4 of SMBus 2.0) |
| Pca9685.StoredForPin | drivers/pca9685.c:24-28 | a write for pin 16 reaches the same register of every channel, any other write one register |
| Pca9685.Driver.PWMReset | drivers/pca9685.c:68-72 | every output is zero |
| Pca9685.Driver.PWMWrite | drivers/pca9685.c:77-84 | both counts cut to 12 bits and full bits cleared, of one pin or of all; no other register touched |
| Pca9685.Driver.FullOn | drivers/pca9685.c:89-102 | sets or clears full-on, of one pin or of all; setting it clears full-off; the counts of the pin itself are kept |
| Pca9685.Driver.FullOff | drivers/pca9685.c:107-116 | sets or clears full-off, of one pin or of all; on counts and full-on kept |
| Pca9685.Driver.MyPwmWrite | drivers/pca9685.c:131-142 | the pin, or for pin 16 every pin, puts out the value clamped to 0..4096 from any register state, and nothing else changes |
| Pca9685.Driver.MyOnOffWrite | drivers/pca9685.c:147-156 | the pin, or every pin, puts out 0 or 4096, and nothing else changes |
| Pca9685.OtherChannelsStay | drivers/pca9685.c:24-28 | register addresses of different pins do not meet |
| Pca9685.LevelInBits | drivers/pca9685.c:24-28 | which registers a pin has, and what level their bits put out |
| Pca9685.RunPutsOutLastWanted | drivers/pca9685.c:131-156 | after any run of writes from any registers every pin puts out what was last asked of it, alone or together with all |
| Pca9685.Prescale | drivers/pca9685.c:36-44 | for every frequency within 5..152, and prescale+1 within 1/2 of the exact divisor |
| Pca9685.PrescaleInNumbers | drivers/pca9685.c:36-44 | a frequency within 40..1000 is taken as it is, one below as 40 and one above as 1000 |
| Pca9685.Driver.PWMSetFreq | drivers/pca9685.c:34-63 | a fault: MODE1 is written back as read, so a chip that is awake keeps its old prescale and one that sleeps takes the new one and stays asleep |
| SoftPwm.Pulse.Set | applications/ioDevices.c:61-77 | times become ticks; the running count is not reset |
| SoftPwm.Pulse.Process | applications/ioDevices.c:84-106 | one tick in numbers: time and count after it, with the 32-bit wrap of count and product, and the level |
| SoftPwm.CountClimbs | applications/ioDevices.c:93-99 | within a period the count climbs and every count up to the threshold is HIGH |
| SoftPwm.OneMoreTick | applications/ioDevices.c:84-106 | the HIGH ticks among n+1 are those among n and the last one, if it is HIGH |
| SoftPwm.WindowHasThresholdPlusOne | applications/ioDevices.c:84-106 | in endless mode every window of one period has min(period, threshold+1) HIGH ticks, wherever it starts |
| SoftPwm.WindowInNumbers | applications/ioDevices.c:98-99 | while period * duty fits 32 bits a window has min(period, period * duty / 100 + 1) HIGH ticks |
| SoftPwm.ShareInNumbers | applications/ioDevices.c:98-99 | the share is period * duty / 100, and at most the period |
| SoftPwm.WindowExample | applications/ioDevices.c:118-118 | at 200 milliseconds and duty 10 it is 3 of 20 |
| SoftPwm.ShareIsExactIff | applications/ioDevices.c:98-99 | a fault: for every period and duty the window has the share the duty asks for, rounded down, if and only if the duty is at least 100 and the threshold, wrapped or not, is not short of the period |
| SoftPwm.OneTickTooMany | applications/ioDevices.c:98-99 | below full duty it has one tick too many if and only if period times duty fits 32 bits |
| SoftPwm.WrappedDuty | applications/ioDevices.c:98-99 | a period of 42949673 ticks at full duty has one HIGH tick |
| SoftPwm.RunningTickBoundsCount | applications/ioDevices.c:93-95 | after one running tick the count is below the period |
| SoftPwm.TimedRunsThenStaysLow | applications/ioDevices.c:86-105 | outside endless mode exactly the first time-1 ticks behave as in endless mode and all later ones are LOW |

## Left out

- Lcd.Lcd.DrawEllipse: asks that not both radii are zero, because the source does not return then (`EllipseGeometry.ZeroRadiiLoopForever`); its products of radii are unbounded integers, while those of the source leave 32 bits for radii of about a thousand and more.
- Lcd.Lcd.DrawCircle: the error term is an unbounded integer; the overflow of 32 bits for very large radii or distant centres is not modelled.
- Lcd.Lcd.DrawLine: coordinates and error terms are unbounded integers; `LineGeometry.ErrorIsSmall` says up to which length no overflow of 32 bits can happen in the error term, what an overflow would do is not modelled.
- Display.UpdateShowsBuffer: the two controllers are modelled from the commands the driver sends (column, page, data); strobe timing and the other commands are not.
- AsyncLog.NoLostWakeup: stands for the configuration in which the output lock is enabled; switching the lock off and on again is not modelled.
- AsyncLog.EveryScheduleDelivers: says nothing about bytes a full ring refuses, which the source drops as well, nor about what the port does with a printed chunk (`Record.PortShowsAllIff`).
- RecordParser.FindTag: its argument is the memory from the start of the record on; memory that ends within the 16 characters looked at is taken as showing no tag.
- Record.Logger.Output: the text of the time, process and thread fields and the result of `vsnprintf` are parameters.
- TagFilter.FilterRemembersLastSetting: speaks of runs in which a new tag always found a slot; `TagFilter.FilterRemembersLastGranted` covers all runs.
- Filter.OutputsFromSilenceAreBounded: over reals, as all control code here; rounding of floating-point values is not modelled. The filter's coefficients are parameters: the source never sets them, and the call of the filtered controller is commented out (user/Control.c:184).
- Stability.StableOutputsAreBounded: gives a bound, not the least one, and does not say that filters with poles outside the unit circle have none, which depends on their zeros.
- Setpoint.SetpointDoesNotRunAway: takes the measured depth and the stick position of every call as parameters; the stick's range is the one the receiving code produces, -127 to 128.
- SpeedBuffer.Buffer: for a range of zero or less, in which a value could step below -32768, the 16-bit wrap is not modelled.
- SoftServo.Servos.Frame: a wait takes exactly the time asked for, and setting a pin takes none; the gap up to the end of the frame and threads are left out.
- Depth.DepthController.UpDown: the thrusts are integers; thrusts beyond 16 bits, which need errors of more than 32000, are not modelled.
- Gpio.PinsDoNotInterfere: the branches for the board with a different register layout, pin numbering tables and debug output are not modelled.
- Nodes.NodeList.NewNode: returns null where the program prints a message and exits; running out of memory is not modelled.
- Pca9685.RunPutsOutLastWanted: the chip is modelled by its registers; that a write to the registers for all channels is copied into every channel, and read back as written, is what the driver takes for granted. The automatic increment of register addresses is not modelled.
- SoftPwm.WindowHasThresholdPlusOne: the pin level is a field; which level lights the lamp is not modelled.
- Rectangles, characters and text on the display: they are built from lines and points and add only easy members.
- Reading the ring line by line, raw logging and hex dumps: switched off, or with nothing of their own to prove.
- Yaw control, the trigonometry of the four-axis mixer and the attitude filters: bodies that are floating-point formulas throughout.
- Sockets, threads, sensors, the camera page and the other chip drivers: input and output without a deep invariant.
- The remote-control packet and its checksum: straight-line copying.
