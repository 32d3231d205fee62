# Ball game: a verified model

A server keeps a linked list of bouncing balls, each owned by the client that created it. Clients send
short text commands; a main thread queues them, four workers carry them out, and a broadcast thread
moves the balls and sends the whole list as text. Each client parses the text, converts it to pixels
and paints filled circles into a framebuffer. This project models those parts in Dafny and proves what
they promise. `dafny verify dfyconfig.toml` checks all of it.

## Layout

| file | part of the program |
|---|---|
| `Framebuffer.dfy`, `Line.dfy`, `Circle.dfy`, `TextLayout.dfy` | `src/shared/fbDraw.c`: byte buffer, integer lines, the disc, the text cursor |
| `Binary32.dfy` | rounding to 24 significant bits, for whole numbers and for reals |
| `Motion.dfy`, `Speed.dfy`, `Ball.dfy` | one ball: reflection on an axis, speed commands, creation |
| `Seqs.dfy`, `Owners.dfy` | ball lists as sequences: the specification of every list operation |
| `BallList.dfy`, `BallManager.dfy` | the heap: nodes, head, tail, `total_count`, and the operations over them |
| `Game.dfy` | whole runs of ticks, commands, connections and disconnections |
| `TaskQueue.dfy`, `QueueProtocol.dfy`, `QueueDelivery.dfy`, `QueueRefinement.dfy` | the ring buffer, its one-condition-variable protocol, what that delivers, and the ring as an implementation of it |
| `Decimal.dfy`, `Wire.dfy` | decimal printing and scanning, the nine-field record, `strtok` |
| `CStrings.dfy`, `Serializer.dfy`, `Capacity.dfy` | C strings, the text in its 8192-byte buffer, and how many balls fit |
| `Pixels.dfy`, `PixelLoss.dfy` | pixel conversion and the radius rule, and exactly where rounding loses a pixel |
| `Client.dfy`, `Display.dfy` | the client's list, what the screen shows |
| `Server.dfy` | `parseCommand`, the worker, and runs on the heap list |
| `Arith.dfy`, `Color.dfy` | C division, multiplication facts, bytes |

## Choices

* Code that changes things in place is a method over the heap: the framebuffer is a byte array, the
  ball list a chain of nodes, the candidate window of `delete_ball` two arrays, the task queue a ring
  in an array. Each method is proved against a function of its inputs, and the laws are proved about
  that function.
* `Paint(screen, before, S, c)` is the buffer in which exactly the on-screen pixels of the set `S` have
  colour `c`. Every drawing method states its set: one pixel, a rectangle, a line, a disc.
* Positions are integers, rounded where the source rounds. They start as whole numbers and speeds are ints
  (`-2.5f` and `2.5f` are stored as -2 and 2), so every float coordinate is a whole number; `Float` rounds
  it to 24 significant bits, ties to even. In runs whose radii are at least 4999 - 2^24 no value exceeds
  2^24 and no rounding happens, which `Game.RunExact` proves.
* Pixels are computed in rounded real arithmetic (`Round`, `Times`, `Over`), which agrees with `Float` on
  whole numbers (`Binary32.FloatIsRound`).
* Integers are unbounded. The places where C's operators differ from Dafny's are written out: `Div` and
  `Rem` truncate toward zero, `%hhu` is taken modulo 256, `snprintf` into `temp` cuts at 255 characters.
* `rand()` is a parameter of each command: one group of four draws for each ball created.
* Functions that describe the program (`ColorByOwner`, `PageFor`, `InDisc`, `Component`, `Step` and so on) each
  have a law in plain numbers beside them that does not mention their bodies.
* At radius 500 `create_logical_ball` divides by zero; an add command with that radius has no defined
  meaning, and the statements about runs leave out only that value.
* Colour channels are bytes; the source passes them through `char`, which stores the same byte.
* `RADIUS` is a parameter of the disc; the client draws with the source's value 20.
* An uninitialised record variable of the client is a parameter too (`junk`): the round trip does not
  depend on what it holds.
* The wait loops of the queue are in `QueueProtocol`: a critical section, from taking the mutex to
  `unlock` or `wait`, is one action, `signal` wakes one or more sleepers, and a wait may also end on its
  own. `TaskQueue.Queue.Enqueue` and `TaskQueue.Queue.Dequeue` are the bodies after the wait loops.

## What turned out

* `fb_drawFilledCircle` fills an exactly describable set for every radius, `InDisc`. It contains the disc
  of squared radius R² and stays inside squared radius R² + R. At R = 1 it is a plus sign.
* k speed-ups and then k speed-downs restore a speed d exactly when k is 0, |d| ≤ 1, or
  |d|·2^(k-1) ≤ 2000. A speed of 1 is restored even when the ups have clamped, because the downs clamp too.
* Reversing a tick restores the state exactly when the ball was strictly inside its walls or the tick
  bounced. A ball created on the lower wall is the exception.
* One shared condition variable is safe here for two separate reasons with two separate exact limits. A
  sleeping producer means a full queue if and only if there are no more workers than slots; a state in
  which everybody sleeps is unreachable if and only if there are fewer workers than twice the slots.
* The tab loop of `fb_printStr` resets its counter on a line wrap. It ends exactly when four advances fit
  from the cursor or three fit from the line start. A whole text printed from its line start comes to an
  end exactly if it has no tab or three advances fit on a line (`TextLayout.TerminatesExactly`).
* A new ball is inside its walls exactly when its radius is below 500 (`Ball.CreatedSound`), for radii from
  997 - 2^24 on, and that limit is exact (`Ball.CreatedSoundExactly`): below it a float position can round
  onto the wall, as for `a:1:-20000000` (`Ball.CreatedOnWall`). Ticks are exact from radius 4999 - 2^24 on,
  and that limit is exact as well (`Ball.TickExactly`).
* The unchecked 8192-byte buffer has an exact capacity. The text fits in every run that has never held more
  than 186 balls, and a run with 187 overflows it; if descriptors could be negative, which makes a colour
  grey, the limit would be 178 (`Capacity.CapacityExactly`, for radii from 0 to 499).
* The client's radius rule is inverted. It keeps a scaled radius only where that exceeds the smaller side of
  the screen, which is exactly where radius·min ≥ 1000·(min + 1), except for radius 1004 on a side of 250,
  where binary32 rounds down (`Pixels.ExceedsScreen`). Elsewhere the radius is 5, so the scaled one is shown
  by chance where 5000 ≤ radius·min < 6000 (`Pixels.RadiusRule`). So every ball of the game gets radius 5
  (`Pixels.GameRadius`), and the start radius 20 survives only on sides of 250 to 299 pixels
  (`Pixels.StartRadius`).
* A pixel is the integer quotient of coordinate·size by 1000, less one exactly if the division leaves no
  remainder and the product of the rounded quotient falls short by more than half a spacing, which is a
  condition on whole numbers (`PixelLoss.Lost`, `PixelLoss.PixelExactly`). On the program's 1920 by 1080
  screen that happens to one coordinate only: 525 goes to column 1007 instead of 1008
  (`PixelLoss.PixelOnWidth`, `PixelLoss.PixelOnHeight`).
* Once the main thread stops pushing, the queue comes to rest after a bounded number of critical sections with
  every task taken in order, if and only if there are fewer workers than twice the slots
  (`QueueDelivery.DeliveryExactly`).
* `parseCommand` ignores what follows a complete command (`Server.RestIgnored`).
* The staleness test of `delete_ball` never fires (`BallManager.DropCandidate`).

## Model

| member | source | states |
|---|---|---|
| Framebuffer.CellOwner | src/shared/fbDraw.c:60-63 | the four bytes of an on-screen pixel are inside the mapping and belong to that pixel only, so cells are disjoint |
| Framebuffer.MappingCoversScreen | src/shared/fbDraw.c:35-37 | every on-screen pixel lies in the mapped bytes if and only if the vertical offset is 0 and a line holds the offset plus the visible columns |
| Framebuffer.RasterOrder | src/shared/fbDraw.c:60-63 | the next column is four bytes on and the next row one line length |
| Framebuffer.BoxCorners | src/shared/fbDraw.c:157-167 | a rectangle of w by h has its first and its last pixel and nothing beyond its sides |
| Framebuffer.PaintMeaning | src/shared/fbDraw.c:70-88 | painting a set makes each of its on-screen pixels read blue, green, red, 0 and keeps every other byte |
| Framebuffer.PaintedBytes | src/shared/fbDraw.c:72-78 | at the address of a painted on-screen pixel stand the blue, the green and the red channel and a zero, in that order |
| Framebuffer.KeptBytes | src/shared/fbDraw.c:72-78 | the four bytes of any other on-screen pixel stay |
| Framebuffer.PaintTwice | src/shared/fbDraw.c:70-88 | painting two sets in one colour is painting their union |
| Framebuffer.DrawPixel | src/shared/fbDraw.c:70-88 | changes the cell of an on-screen pixel and nothing else; off screen it changes nothing |
| Framebuffer.FillBox | src/shared/fbDraw.c:157-167 | paints exactly the rectangle, clipped to the screen, for any corner and size |
| Framebuffer.FillScr | src/shared/fbDraw.c:110-125 | the unchecked fill equals the box fill of the whole screen |
| Line.LineShape | src/shared/fbDraw.c:174-242 | a line is a list of max(abs dx, abs dy) + 1 distinct pixels from one endpoint to the other, consecutive ones 8-connected, and those are exactly the members of OnLine |
| Line.HalfPixel | src/shared/fbDraw.c:201-240 | every visited pixel is within half a pixel of the ideal segment on the minor axis and inside the bounding box |
| Line.GentleExactly | src/shared/fbDraw.c:201-240 | a line that is not steep has exactly the pixels within half a pixel of it on each column; of two equally near ones the one in the row nearer to the left end |
| Line.SteepExactly | src/shared/fbDraw.c:179-226 | a steep line has exactly the pixels within half a pixel of it on each row; of two equally near ones the one in the column nearer to the upper end |
| Line.TieGoesToTheStart | src/shared/fbDraw.c:203 | the line from (0,0) to (2,1) is (0,0), (1,0), (2,1) |
| Line.NearUnique | src/shared/fbDraw.c:203-240 | each major coordinate has only one pixel on the line |
| Line.LineSymmetric | src/shared/fbDraw.c:179-199 | drawing from A to B and from B to A gives the same pixels, through the axis swap and the endpoint swap |
| Line.HorizontalLine | src/shared/fbDraw.c:229-240 | a horizontal line is the run of pixels between its ends |
| Line.VerticalLine | src/shared/fbDraw.c:179-226 | a vertical line is the run of pixels between its ends |
| Line.Column | src/shared/fbDraw.c:214-240 | with the error term in its invariant the pen is at the only line pixel of its column |
| Line.DrawGentle | src/shared/fbDraw.c:229-240 | the loop with x as major axis paints exactly the line |
| Line.DrawSteep | src/shared/fbDraw.c:214-225 | the loop with swapped axes paints exactly the flipped line |
| Line.DrawLine | src/shared/fbDraw.c:174-242 | between any two points, paints exactly the pixels of OnLine that are on the screen |
| Circle.DiscContains | src/shared/fbDraw.c:575-602 | every offset with a² + b² ≤ R² is filled |
| Circle.DiscContained | src/shared/fbDraw.c:575-602 | no offset with a² + b² ≥ R² + R is filled |
| Circle.DiscOctant | src/shared/fbDraw.c:575-602 | for R ≥ 2 the offsets 0 ≤ a ≤ b filled are those with 4a² + (2b - 3)² < 4(R - 1)² + 5, and on the diagonal also those with equality |
| Circle.DiscReflections | src/shared/fbDraw.c:598-601 | the filled set is symmetric in both axes and both diagonals; at R = 1 it is a plus sign |
| Circle.LowDiagonal | src/shared/fbDraw.c:587-595 | up to two thirds of the radius the decision variable is still negative on the diagonal, so a decrement can only happen above that |
| Circle.StraddlesStep | src/shared/fbDraw.c:589-595 | the decision variable keeps its closed form x² + y² - 3y + 2R - R², and is negative again whenever another turn follows |
| Circle.DrawnStep | src/shared/fbDraw.c:587-601 | the four spans of a turn add exactly the part of the filled set that the turn reaches |
| Circle.DrawnFinal | src/shared/fbDraw.c:587 | when the loop ends every row of the filled set has been covered |
| Circle.DrawFilledCircle | src/shared/fbDraw.c:575-602 | for every centre and every R ≥ 1 paints exactly the set InDisc, clipped to the screen |
| TextLayout.PageMeans | src/shared/fbDraw.c:541-546 | for every height the glyph width is the even one of a third of it and one more, the step is two glyph widths, a line is one and a half heights rounded toward zero; line start and screen width are the arguments |
| TextLayout.TabTerminatesExactly | src/shared/fbDraw.c:553-563 | the tab loop ends if and only if four advances fit from the cursor or three from the line start; then the cursor is four columns on, or in column three of the next line |
| TextLayout.TabMeans | src/shared/fbDraw.c:553-563 | a tab moves four columns on where they fit and draws four blanks; else it goes to column three of the next line, with one blank for each column left, one for the wrap and three more |
| TextLayout.TabPlaces | src/shared/fbDraw.c:553-563 | the blanks of a tab stand column by column on its own line and, after a wrap, from the start of the next |
| TextLayout.StaysOnPage | src/shared/fbDraw.c:548-572 | if one glyph fits at the line start and the string terminates, every glyph is drawn at a cursor with x + w ≤ xres |
| TextLayout.PlainTextGrid | src/shared/fbDraw.c:564-571 | plain text fills a grid: character k is in column k mod m and row k div m |
| TextLayout.ColumnsExactly | src/shared/fbDraw.c:568-571 | the last of the m columns fits the screen and a further one would not |
| TextLayout.GuideText | src/client/screenballmanager.c:16-35 | plain text of height 12 from column 10 of 1920 goes 8 pixels on per character and 18 down after 239 |
| TextLayout.LayoutConcat | src/shared/fbDraw.c:548-572 | printing a text in two parts, the second from the cursor the first leaves, is printing it whole |
| TextLayout.NewLine | src/shared/fbDraw.c:549-552 | what follows a newline is laid out from the line start of the next line |
| TextLayout.PrintTab | src/shared/fbDraw.c:554-562 | the loop with the reset counter terminates and draws the blanks of the tab |
| TextLayout.PrintStr | src/shared/fbDraw.c:538-573 | on every string without a tab, and on every page with room for three advances, draws each character where the layout says and leaves the cursor there |
| TextLayout.TerminatesExactly | src/shared/fbDraw.c:538-573 | a text printed from its line start comes to an end if and only if it has no tab or three advances fit on a line |
| TextLayout.RoomForTabs | src/shared/fbDraw.c:541-546 | for heights of at least zero that room is the third advance alone: start + 3 steps + glyph width within the screen |
| Binary32.FloatRounds | src/server/loaclball.c:10-11 | storing a whole number in a float gives a multiple of the spacing at its magnitude, at most half a spacing away, and rounding is symmetric |
| Binary32.FloatIsRound | src/server/loaclball.c:36-48 | rounding of whole numbers and rounding of reals to 24 significant bits agree on every integer |
| Motion.StaysContained | src/server/loaclball.c:35-50 | at any speed a position in r ≤ x < 1000 - r stays there, and a speed changes only its sign |
| Motion.StaysInside | src/server/loaclball.c:39-43 | a position r < x < 1000 - r stays strictly between the walls |
| Motion.ReversibleExactly | src/server/loaclball.c:35-50 | one tick is undone by reversing the speed if and only if the ball was strictly inside or the tick bounced |
| Motion.TimeReversible | src/server/loaclball.c:35-50 | from strictly inside, t ticks, a reversal, t ticks and a reversal give back the start |
| Motion.EdgeStart | src/server/loaclball.c:10-11 | a ball created on the lower wall is inside after two ticks if a step fits, and otherwise has period 2 |
| Motion.PositionsCount | src/server/loaclball.c:40-43 | Positions counts the positions x + k·d strictly between the walls |
| Motion.TriangleWave | src/server/loaclball.c:35-50 | after t ticks the ball is at phase p + t of the triangle wave through those n positions |
| Motion.PeriodExactly | src/server/loaclball.c:35-50 | the start state recurs exactly at the multiples of 2n ticks |
| Speed.SpeedsBounded | src/server/localball_list.c:46-83 | speed commands keep 1 ≤ abs d ≤ 4000 and the sign |
| Speed.DownsDivide | src/server/localball_list.c:66-83 | k speed-downs divide by 2^k but never below 1 |
| Speed.UpsUnclamped | src/server/localball_list.c:46-64 | while no step clamps, k speed-ups multiply by 2^k |
| Speed.AfterClamp | src/server/localball_list.c:46-64 | after the ups that first exceed 2000, further ones give 2000, 4000, 2000 and so on in turn, with the sign of the speed |
| Speed.RestoredExactly | src/server/localball_list.c:46-83 | k ups then k downs restore d if and only if k = 0, abs d ≤ 1 or abs d·2^(k-1) ≤ 2000 |
| Ball.CreatedSound | src/server/loaclball.c:3-20 | from radius 997 - 2^24 on, a new ball is inside its walls, with legal speed and its owner's colour, if and only if its radius is below 500; each speed component is 2 or -2 |
| Ball.CreatedSoundExactly | src/server/loaclball.c:9-11 | all radii from lo to 499 create balls inside their walls for every draw if and only if lo ≥ 997 - 2^24 |
| Ball.CreatedOnWall | src/server/loaclball.c:10-11 | at radius -20000000 the drawn position 20000999 is stored as 20001000, which is the wall |
| Ball.CreatedFrom | src/server/loaclball.c:3-20 | a new ball has the given id, radius, owner and colour, a place congruent to the first two draws, and speed 2 for an odd and -2 for an even draw on each axis |
| Ball.CreatedAnywhere | src/server/loaclball.c:9-15 | every place between the walls and every pair of directions is the outcome of some draws |
| Ball.ColorsShared | src/server/loaclball.c:23-32 | two descriptors share a colour exactly when they agree modulo 5 |
| Ball.Channels | src/server/loaclball.c:23-32 | red is lit for residues 0, 3, 4 modulo 5, green for 1, 3, blue for 2, 4; negative descriptors that are no multiple of 5 are grey |
| Ball.TickExact | src/server/loaclball.c:35-50 | for a sound ball of radius at least 4999 - 2^24 every value of a tick is at most 2^24 in magnitude, so the float tick is the exact tick |
| Ball.TickExactly | src/server/loaclball.c:35-50 | all sound balls of radius at least lo move without rounding if and only if lo ≥ 4999 - 2^24 |
| Ball.MovedSound | src/server/loaclball.c:35-50 | ticks and speed commands keep every such ball so |
| Ball.Kept | src/server/loaclball.c:35-50 | ticks and speed commands keep id, radius, owner and colour, and speed commands keep the place |
| Ball.TickMeans | src/server/loaclball.c:35-50 | on each axis a sound ball advances by its speed where that lands strictly between the walls, and otherwise stays and turns round |
| Ball.AxesIndependent | src/server/loaclball.c:35-50 | the two axes of a ball move independently |
| Ball.BallPeriod | src/server/loaclball.c:35-50 | a ball strictly inside recurs exactly at the common multiples of its two axis periods |
| Owners.Separated | src/server/localballmanager.c:93-120 | the balls of an owner and those of the others together are the list, as multisets, and each side has only its own |
| Owners.OwnedInOrder | src/server/localballmanager.c:171-179 | the balls of an owner stand in list order at exactly the positions that hold one of its balls |
| Owners.AddedBalls | src/server/localballmanager.c:19-26 | adding keeps the old list in front; new ball i has the next free id and its own draws |
| Owners.RemoveLastOwned | src/server/localballmanager.c:28-91 | the owner keeps all balls but the last min(count, owned), in order, and the list shrinks by that number |
| Owners.RemoveLastOthers | src/server/localballmanager.c:28-91 | all other owners keep every ball in order |
| Owners.RemoveLastStep | src/server/localballmanager.c:62-87 | each further removal cuts at the next owned position from the back, before which the list is untouched |
| Owners.CountsAddUp | src/server/localballmanager.c:171-179 | the counts by owner add up to the length of the list |
| BallList.ChainCut | src/server/localballmanager.c:79-82 | pointing the predecessor past a node leaves a chain without that node |
| BallList.Manager.AppendBall | src/server/localball_list.c:18-34 | appends one new node after the tail; the chain stays acyclic with the right ends |
| BallList.Manager.Unlink | src/server/localballmanager.c:69-85 | removes exactly one node; head, tail and total_count are right afterwards |
| BallList.Manager.DeleteAll | src/client/screenball_list.c:69-80 | empties the list and counts total_count down to 0 |
| BallManager.AddBall | src/server/localballmanager.c:19-26 | appends count new balls whose ids are the counts before them |
| BallManager.FindLast | src/server/localballmanager.c:29-55 | after the walk the window holds the owner's last min(count, owned) nodes with their true predecessors |
| BallManager.DropCandidate | src/server/localballmanager.c:62-87 | the saved predecessor still points at its candidate, so the staleness test never skips one |
| BallManager.DeleteBall | src/server/localballmanager.c:28-91 | the heap list afterwards is RemoveLast of the list before, with ends and count right |
| BallManager.DeleteBallBySocket | src/server/localballmanager.c:93-120 | removes exactly the balls of one owner |
| BallManager.CountBallByOwner | src/server/localballmanager.c:171-179 | counts the balls of one owner |
| BallManager.MoveLogicalBall | src/server/loaclball.c:35-50 | the step-by-step update is the reflection of both axes |
| BallManager.MoveBallList | src/server/localball_list.c:36-42 | moves every ball once and keeps the links |
| BallManager.SpeedUpBalls | src/server/localball_list.c:46-64 | speeds up exactly the owner's balls |
| BallManager.SpeedDownBalls | src/server/localball_list.c:66-83 | slows down exactly the owner's balls |
| Game.OwnersIndependent | src/server/server.c:170-244 | after any run, one owner's balls, ids aside, are those of a run with only that owner's events and the ticks |
| Game.OtherStep | src/server/localballmanager.c:199-239 | another client's event leaves an owner's balls as they were |
| Game.OwnStep | src/server/localballmanager.c:199-239 | a tick or own event acts on an owner's balls as if they were alone |
| Game.Arrives | src/server/main.c:127-128 | a client that connects gets five balls of radius 20 behind all others, with the next free ids |
| Game.Departs | src/server/main.c:154-155 | a client that disconnects leaves no ball behind; the list shrinks by what it owned, exactly the others' balls remain, and every other client keeps its own in order |
| Game.GoneForGood | src/server/server.c:193-213 | after any run, a client that has left and sends nothing more owns no ball, whatever follows |
| Game.RunEvery | src/server/server.c:170-262 | a property that motion keeps and new balls have holds of all balls at every moment of every run |
| Game.RunSound | src/server/loaclball.c:3-50 | in every run with radii from lo to 499, lo ≥ 4999 - 2^24, each ball is inside its walls with 1 ≤ abs speed ≤ 4000 on both axes, its owner's colour and a radius of at least lo (lo ≤ 20) |
| Game.RunMeans | src/server/loaclball.c:3-50 | the same in numbers: radius ≤ x, y < 1000 - radius, 1 ≤ abs speed ≤ 4000 and lo ≤ radius < 500 |
| Game.RunExact | src/server/loaclball.c:35-50 | in every such run all coordinate values stay within 2^24 and the next tick of every ball is computed without rounding |
| Game.RunSoundExactly | src/server/loaclball.c:3-50 | all balls of all prefixes of a run are inside their walls with legal speeds and colours if and only if no client ever adds a radius of 500 or more (radii of add commands at least 4999 - 2^24) |
| Game.RunIds | src/server/localballmanager.c:19-23 | ids stay below the largest length the list has had |
| Game.UpsThenDowns | src/server/localball_list.c:46-83 | k ups then k downs of an owner restore the whole list if and only if all that owner's speeds are restorable; other balls never change |
| Game.SpeedsRestored | src/server/localball_list.c:46-83 | k ups and then k downs of a client, with any ticks and other clients' events in between, restore the magnitude of each of its speeds if and only if that speed is restorable |
| Game.RunTicks | src/server/server.c:246-262 | k ticks move every ball k times |
| TaskQueue.Queue.constructor | src/server/task.c:5-12 | a new queue is empty |
| TaskQueue.Queue.Enqueue | src/server/task.c:24-26 | appends to the FIFO contents; taken ++ queued = stored is kept |
| TaskQueue.Queue.Dequeue | src/server/task.c:45-47 | takes the oldest; taken ++ queued = stored is kept |
| QueueProtocol.ActionKeeps | src/server/task.c:16-53 | every action keeps conservation of tasks and the bounds on sleepers, with fewer workers than twice the slots |
| QueueProtocol.NoLostWakeup | src/server/task.c:16-53 | with no more workers than slots: a sleeping producer means a full queue and no sleeping worker, W ≥ 1 sleeping workers mean W + count ≤ N, and no task waits while all workers sleep |
| QueueProtocol.SleepingProducerMeansFull | src/server/task.c:20-22 | a sleeping producer always means a full queue if and only if there are no more workers than slots |
| QueueProtocol.DeadlockFreeExactly | src/server/task.c:16-53 | no reachable state has everybody asleep if and only if there are fewer workers than twice the slots |
| QueueDelivery.EffortFalls | src/server/task.c:16-53 | every action of the program itself takes at least one off a bound on the number of actions left, and stored plus pending tasks stay the same |
| QueueDelivery.NothingLeft | src/server/task.c:16-53 | a reachable state in which no thread can go on has an idle producer, an empty queue and every stored task taken, with fewer workers than twice the slots |
| QueueDelivery.DeliveryExactly | src/server/task.c:16-53 | from every reachable state, without new calls, the threads come to rest within the bound and every task ever given to push has then been taken, in order, if and only if there are fewer workers than twice the slots |
| QueueRefinement.PushSection | src/server/task.c:16-30 | the critical section of push on the ring is the protocol action Push where there is room and PushWaits where there is none; the ring then holds the queue and history of the next protocol state |
| QueueRefinement.PopSection | src/server/task.c:34-53 | the same for pop; the task returned is the oldest |
| QueueRefinement.Replay | src/server/task.c:16-53 | after any schedule of producer and workers the ring holds the queue and history of the protocol state reached |
| Decimal.ScanIntText | src/client/screenballmanager.c:91-96 | scanning %d undoes printing %d for every integer |
| Decimal.ScanIntPadded | src/server/server.c:72-80 | white space before a number is skipped and a plus sign is accepted |
| Decimal.ScanByteWraps | src/client/screenballmanager.c:91-96 | a scanned colour channel is the number modulo 256 |
| Decimal.ScanFixedText | src/client/screenballmanager.c:91-96 | scanning %f undoes printing %.2f for every whole number |
| Decimal.ScanFraction | src/client/screenballmanager.c:91-96 | digits, a point and digits scan to all the digits as one number, divided by ten for each one after the point |
| Decimal.ScaledMeans | src/client/screenballmanager.c:91-96 | that division is by the power of ten |
| Wire.NeverTruncated | src/server/localballmanager.c:155-161 | no record of 32-bit fields is cut by the 256-byte buffer |
| Wire.TempLength | src/server/localballmanager.c:155-161 | a ball of a run with an id below 1000 takes at most 46 characters, at most 44 with a real descriptor as owner |
| Wire.RecordExample | src/server/localballmanager.c:155-161 | a yellow ball of radius 20 at (345, 60) with id 12 and speeds -2, 2 is the text 12,345.00,60.00,-2,2,20,255,255,0 and a bar |
| Wire.RecordRoundTrip | src/client/screenballmanager.c:91-96 | all nine fields of a record come back, whatever the variables held |
| Wire.TokensMean | src/client/screenballmanager.c:88-100 | the tokens of any text are not empty, hold no bar, and together are the text without its bars |
| Wire.TokensOfSerialized | src/client/screenballmanager.c:88-100 | splitting the text at bars gives the records, all of them, in order, for balls with 32-bit fields |
| Wire.MessageRoundTrip | src/client/screenballmanager.c:81-104 | parsing the serialised list gives the same balls in the same order in all nine fields, for lists of any length of balls with 32-bit fields |
| Serializer.StrCat | src/server/localballmanager.c:163 | appends at the NUL of the buffer, given room for the text and a new NUL |
| Serializer.Serialize | src/server/localballmanager.c:149-168 | the walk over the heap list leaves the text of its contents as the C string in the 8192-character buffer, provided text and NUL fit |
| Client.UpdateBallList | src/client/screenballmanager.c:81-104 | replaces the client's list by the converted balls of the message; total_count is the new length |
| Pixels.PixelMonotone | src/client/screenballmanager.c:52-54 | the pixel conversion is monotone, with all its roundings |
| Pixels.PixelOfFloats | src/client/screenballmanager.c:52-54 | the pixel depends only on the coordinate and the side as floats |
| Pixels.PixelNegated | src/client/screenballmanager.c:52-54 | negative coordinates mirror positive ones |
| Pixels.PixelOnScreen | src/client/screenballmanager.c:52-54 | a whole coordinate in 0 ≤ v < 1000 becomes a pixel on a screen of any size, with all its roundings |
| PixelLoss.PixelExactly | src/client/screenballmanager.c:52-54 | for coordinate·size below 8000000 the pixel is the integer quotient by 1000, less one if and only if Lost, a condition on whole numbers: no remainder, and 2·g·(k·d - a·size) > d for the quotient k, the significand a of the coordinate over 1000 at its scale d, and the scale g just below k |
| PixelLoss.PixelOnWidth | src/client/screenballmanager.c:52-54 | on 1920 columns every whole coordinate below 1000 goes to its integer quotient, except 525, which goes to 1007 |
| PixelLoss.PixelOnHeight | src/client/screenballmanager.c:52-54 | on 1080 rows every whole coordinate below 1000 goes to its integer quotient |
| Pixels.ExceedsScreen | src/client/screenballmanager.c:72-74 | a scaled radius exceeds the smaller side if and only if radius·min ≥ 1000·(min + 1), except radius 1004 on 250, for every radius and sides up to 2^24 |
| Pixels.RadiusRule | src/client/screenballmanager.c:72-74 | the screen radius is the scaled one in exactly that case and 5 in every other, so it equals the scaled one if and only if that exceeds the side or 5000 ≤ radius·min < 6000; for every radius and sides up to 2^24 |
| Pixels.GameRadius | src/client/screenballmanager.c:72-74 | every radius from 0 to 999 becomes 5 on every screen |
| Pixels.StartRadius | src/client/screenballmanager.c:72-74 | the start radius 20 keeps its scaled value if and only if the smaller side has 250 to 299 pixels |
| Capacity.ReachesLong | src/server/server.c:170-244 | two clients that connect, delete their start balls, add, delete and add again: a run that never holds more than m + 100 balls and ends with m + 100 at speed -4000 on both axes, of which only 100 - m have ids below 100 |
| Client.BufferFits | src/server/localballmanager.c:149-168 | the text and its NUL fit 8192 bytes in every run that has held at most 178 balls, or 186 with real descriptors |
| Capacity.CapacityExactly | src/server/localballmanager.c:149-168 | the text fits in all runs of real descriptors with at most n balls at every moment if and only if n ≤ 186; of any descriptors, if and only if n ≤ 178 |
| Client.ClientSeesServer | src/client/screenballmanager.c:64-104 | after every run within that capacity the client holds the server's balls, in order, each centred on the screen, with radius 5 |
| Client.OnProgramScreen | src/client/screenballmanager.c:60-78 | on 1920 by 1080 the client keeps id, speeds and colour, radius 5, and the place by integer division except column 525 |
| Display.DrawBallList | src/client/screenballmanager.c:8-14 | paints the discs of the list one over the other |
| Display.LastBallWins | src/client/screenballmanager.c:3-14 | each on-screen pixel shows the last ball over it in list order, and pixels under none are unchanged |
| Display.Render | src/client/client.c:64-66 | clears the screen and draws the list |
| Display.OverMeans | src/client/screenballmanager.c:3-6 | a ball covers every pixel within 20 of its centre and none from squared distance 420 on |
| Display.ScreenShowsServer | src/client/client.c:64-66 | after every run within capacity, sent, parsed, converted and drawn over any old frame, the four bytes of each on-screen pixel are blue, green, red and zero of the owner's colour of the last server ball over it, or all zero under none |
| Server.CommandAccepted | src/server/server.c:71-92 | the accepted texts are exactly the single characters and those whose second character is a colon followed by optional white space, an optional sign and a digit |
| Server.RestIgnored | src/server/server.c:71-81 | whatever follows op:n:r but a digit, or op:n but a digit or a colon with a number, changes nothing |
| Server.CommandRoundTrip | src/server/server.c:71-90 | "op:n:r", "op:n" and "op" parse to (op,n,r), (op,n,20) and (op,0,20) for all n, r and every op but NUL, and for NUL to nothing |
| Server.TypedEvents | src/server/server.c:182-233 | what each typed form makes a worker do: counts below one mean one, x disconnects, other letters do nothing |
| Server.TypedAdd | src/server/server.c:216-226 | typing a:n:r, a:n or a adds n balls, one for n below one, of radius r or 20, owned by the client, behind all others with the next free ids |
| Server.TypedDelete | src/server/server.c:216-226 | typing d:n removes the client's last n balls, one for n below one, or all it has, and nobody else's |
| Server.TypedFaster | src/server/localball_list.c:46-64 | typing w doubles both speeds of the client's balls, or sets those above 2000 to 2000, with the sign; nothing else changes |
| Server.TypedSlower | src/server/localball_list.c:66-83 | typing s halves both speeds of the client's balls, never below 1; nothing else changes |
| Server.TypedExit | src/server/server.c:193-213 | typing x in any form removes all the client's balls and nobody else's |
| Server.NothingTyped | src/server/server.c:184-189 | a rejected text and any other letter leave the list as it is |
| Server.DispatchCommand | src/server/localballmanager.c:199-239 | the heap list afterwards is Dispatch of the list before |
| Server.Handle | src/server/server.c:170-262 | one event on the heap list is one step of the run |
| Server.Work | src/server/server.c:177-233 | one task from text to list: parsed, normalised and dispatched; count and radius are kept on a rejected text |
| Server.Serve | src/server/server.c:170-262 | after every run the heap list is a valid chain with the right count and holds the balls of the run |

## Left out

- Sockets, epoll, signals, framebuffer ioctl and mmap, logging and console output: input and output without logic.
- The shutdown path of task_queue_pop: once keep_running is 0 it unlocks and still dequeues (src/server/task.c:41-50), so the queue statements are about runs with keep_running set.
- Uniqueness of ball ids: ids come from total_count, which deletions lower, so ids repeat.
- Mutual exclusion on the client list, and that every owner is connected: the broadcast loop unlocks a mutex it does not hold (src/server/server.c:252), and a queued command can outlive its client.
- The unlocked read of the ball list: a worker sends its client the list after releasing mutex_ball (src/server/server.c:225, 239), while other threads may change it.
- The order in which workers reach the ball list after taking their tasks: runs take events in any order.
- Message framing on TCP, and the "OK" replies that share the stream: the round trip is on whole messages.
- 32-bit overflow of ints, counts and scanned numbers: integers are unbounded.
- Pixels.ExceedsScreen: says nothing about C where the scaled radius exceeds INT_MAX, because converting such a float to int is undefined (section 6.3.1.4 of ISO C11).
- Pixels.RadiusRule: the same.
- PixelLoss.PixelExactly: products from 8000000 on, that is field coordinates on sides of more than 8000 pixels.
- Field-by-field writes to a node's ball: each turn of a walk computes the new ball and stores it whole.
- free and use after free (src/server/localballmanager.c:84-86), malloc and strdup failure: unlinked nodes are simply unreachable.
- 16 bits per pixel, alpha, fb_drawBox and the glyph table of fb_drawChar: data or single-branch code; PrintStr records where each glyph is drawn.
- Decimal.ScanFixedText: exponents, infinities, NaN and hexadecimal input of %f are not modelled; the server never writes them.
- Binary32 overflow and subnormal numbers, and platforms that keep floats in wider registers: a float here is rounded to 24 significant bits after every operation.
- Rounding of a scanned coordinate to float happens when the pixel conversion takes it as its parameter, not in the record.
- Stack space: delete_ball keeps its two candidate arrays on the stack, sized by a client's count (src/server/localballmanager.c:33-34), which a large count overflows; the model allocates them on the heap.
- The local copy of the list and the command guide of render_thread (src/client/client.c:64-67): the copy is a plain loop, and the guide is text on top of the frame.
- serialize_ball_list for one owner: the same walk with a filter, writing owner_id in place of id.
- deep_copy_ball_list, and the client's add_ball, delete_ball and deleteLastBall: a plain copy loop, and code nothing calls.
- client_list_manager.c and the test client: simpler twins of the ball list and of the client.
