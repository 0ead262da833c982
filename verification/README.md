# MazeWar server: verification model

MazeWar is a threaded game server. Clients move avatars through a shared grid of characters, shoot at
each other and see a first-person view. The server keeps, for every client, a copy of the view it last
sent, so that it can send differences only, and repeats every score to every scoreboard.

The project models the server twice.

* **As it runs.** `Maze`, `Player`, `PlayerTable`, `GameServer`, `Channel` and `ClientRegistry` are classes
  with the fields, arrays and loops of the C files. Each method is proved equal to an operation on values
  (`Grids`, `Games`, `Sessions`, `Wire`, `Registry`). About those operations the theorems are proved, over every run
  (`Sight`, `MazeRuns`, `Display`, `GameRuns`, `GameTheorems`, `Effects`, `Scores`, `Sessions`, `Traffic`).
* **As threads interleave.** `Threads`, `Locks`, `RefCounts` and the runs of `Registry` are step systems in
  which one step is one critical section and any schedule of any number of threads is a run.

The main results:

* every client's screen, folded from all CLEAR and SHOW packets, is the padded view of the current maze
  after every step of every run, and its scoreboard lists exactly the players with their scores;
* a client that knows only the layout of messages, given all bytes it was ever sent, shows the cells of the maze to
  the left, ahead and to the right of its player by compass, and the scores letter by letter;
* every operation has the stated effect on cells and records and sends the stated packets, to everyone concerned
  and to nobody else;
* the maze and the player records agree, at atomic grain and at the grain of critical sections;
* a score is the number of shots that found a target, and one shot is all that ever changes one;
* lasers, views and screens agree with one another, and lines of fire and views are symmetric;
* no reachable state of any number of threads is a deadlock, and no schedule that wastes no turn runs on forever;
* reference counts are exact, nothing is freed twice or while referenced;
* any list of packets survives any way of cutting up writes and reads;
* the descriptor array refines a bounded multiset and semaphore tokens are conserved.

## Where the code does not keep a promise

Each of these has a lemma that names the failing cases and one, or the same, that gives the exact condition.

* *Scores above 127.* The score travels in a signed byte (include/protocol.h:63). `ScoreboardsAreCurrent` shows
  that an entry is right exactly when the score is at most 127. `ScoreboardPromiseBreaks` shows what a player
  with 128 or 255 points sees: -128, and -1, the mark of a player that has left. `ScoresOutgrowTheBoard` builds,
  for any number of points, a run that reaches it.
* *A hang-up after a signal.* The service loop takes every failed reception with `errno == EINTR` for an
  interruption (src/server.c:34-37), but end of stream does not set `errno`. `HangupEndsTheSessionExactly`
  shows that a hang-up ends the session exactly when `errno` is not left at EINTR by an earlier call;
  `StaleErrnoKeepsTheSession` shows that otherwise it goes on, whatever else happens, until some call of its thread
  fails for another reason, and `HangUpsGoUnnoticed` gives the run.
* *Waiting for an empty registry.* include/client_registry.h:61-63 promises that `creg_wait_for_empty` blocks
  until the number of clients is zero and then returns. Both halves fail. A token posted earlier lets a thread through
  while a client is registered (`StaleTokenWakesEarly`). With no client, a thread waits if the registry was
  never used (`UnusedRegistryBlocks`) or if another thread has taken the token (`SecondWaiterBlocks`). Over all runs:
  the registry is empty exactly when nobody has registered since an unregistration that left it empty, or nobody ever
  did (`EmptyExactly`); a wait can return exactly when there were more unregistrations that left the registry
  empty than waits (`WaitReturnsExactly`), which for a first wait on an empty registry means that there was one
  (`FirstWaitReturnsExactly`); and `PromiseKeptExactly` puts the two together.
* *The slot is cleared twice.* Logout clears the slot of its player, and so does the last `player_unref`
  (src/player.c:182, 270). `SlotsSurviveRunsExactly` shows, for whole runs, that live sessions keep their slots
  after every step exactly when no step is a second clearing of a slot that was taken again, and
  `RefCounts.LiveAvatarsDiffer` that their avatars differ as long as none was. `StaleClearHappens` and
  `StaleClearSharesAvatar` show that one can happen, and that two sessions then share an avatar.
* *Long chat messages.* The size of a chat packet is cut to 16 bits (src/player.c:474). `ChatArrivesWholeExactly` shows
  that clients get the whole text exactly when name, tag and message are shorter than 65536 bytes together, and
  nothing of a text of just that length.
* *A size without data.* `proto_send_packet` leaves the payload out when the data pointer is null, whatever the
  size field says. `FrameRoundTrip` shows that a packet arrives as meant exactly when this is not so.

## Modelling decisions

* At atomic grain one operation of src/player.c is one step. In particular one view update is atomic for its
  player; the code reads and sends the cached view outside the lock (src/player.c:405-428).
* A LOGIN packet and the reset that follows it are one step. When that reset finds no blank cell, the session ends in
  the same step. The code shuts down reading and leaves the player registered at row -1 until its thread notices.
* A session whose later reset finds no blank cell processes no further packets and can only log out.
* The removal after a hit and the respawn after the sleep are two steps, with any other steps between.
* A hit signal raises the flag of the struck player in the same step.
* In `Threads` and in the atomic model an avatar is taken again only after the last reference to its previous player
  is gone. `RefCounts` does without this and shows exactly when it matters.
* `errno` of a session's thread is set by receptions that are interrupted or fail and, at any time, by an action of its
  own that stands for any other call of that thread that fails (an interrupted write or sleep, a broken send);
  end of stream and successful calls leave it alone.
* Cells are bytes. Converting them to `char` and `int8_t` and back loses nothing, so screens hold bytes; the
  conversion of scores to a signed byte is modelled.
* What `rand()` returns is the parameter `draw`; what `read` and `write` do is a script that a channel follows.
* `Grid.At` reads as blank outside the maze. Behind a solid border no view reads there (`ViewsStayInBounds`).
* A name is the payload of LOGIN up to its first zero byte or its end.
* `phase` (where the serving thread stands), `sent` (everything written to a client) and the ghost `glass` (what its
  screen showed before it joined) are not fields of the C records; they make whole histories speakable.
* Long C functions are split into helper methods, one for each loop or phase.

## Model

| member | source | states |
|---|---|---|
| Compass.IncrementsWalk | src/maze.c:8-9 | scaling the row and column increments by n is walking n cells in that direction |
| Compass.TurnsRotateTheStep | include/maze.h:46-48 | left and right turns cancel, two equal turns reverse, a turn rotates the step vector by a quarter, and going back along the reversed direction returns |
| Grids.BlanksExact | src/maze.c:101-110 | the list behind a random placement holds every blank cell once, in row-major order, and nothing else |
| Grids.BlanksBeforePrefix | src/maze.c:84-110 | the second scan never writes more entries than the first one counted |
| Grids.RandomSpotReachesExactlyTheBlanks | src/maze.c:80-120 | a cell is the landing place of some draw if and only if it is blank; placement fails for all draws if and only if no cell is blank |
| Grids.RandomSpotIsFree | src/maze.c:93-119 | whatever the draw, the chosen cell is blank, and failure means that no cell is |
| Grids.PickExactly | src/maze.c:101-115 | a draw picks the blank cell that has exactly draw modulo the number of blank cells before it, row by row |
| Grids.SetPlayerExactly | src/maze.c:64-77 | a placement returns 0 and changes that one cell exactly when it is a blank cell of the maze; else it returns 1 and changes nothing |
| Grids.MoveExactly | src/maze.c:131-154 | by row and column: a move returns 0 and carries the avatar one cell north, west, south or east exactly when an avatar stands there and the next cell is blank; else it returns 1 and changes nothing |
| Sight.RoomIsReach | src/maze.c:157-169 | a ray stays in the maze for exactly as many cells as its termination measure counts, for any maze size |
| Sight.TargetIsFirstThing | src/maze.c:157-172 | the search returns what stands on the first non-blank cell ahead when that is an avatar and EMPTY when it is not, at any distance |
| Sight.TargetExactly | src/maze.c:157-172 | the search returns an avatar if and only if that avatar stands on the first non-blank cell ahead |
| Sight.FirstThingReversed | include/maze.h:48 | from the first thing ahead, looking in the reverse direction, the origin is the first thing at the same distance |
| Sight.LineOfFireIsSymmetric | src/maze.c:157-172 | avatar a can hit b if and only if b, found at some cell, can hit a by shooting back from there |
| Sight.ViewExactly | src/maze.c:174-199 | the depth of a view is the distance of the first thing plus one, cut by the maximum depth and by the edge, and slice i shows the three cells at distance i |
| Sight.ViewByCoordinates | src/maze.c:174-199 | by row and column, for each of the four gazes: which cell of the maze is the left wall, the corridor and the right wall of slice i |
| Sight.LaserAgreesWithView | src/maze.c:157-199 | a thing within view depth ends the view, with blank corridor before it, and is the laser's target or a solid object when there is none; with nothing ahead the view is blank to the maximum depth or the edge |
| Sight.ViewsReverse | src/maze.c:174-199 | two avatars that face each other over n cells both see n+1 slices, each the other's corridor backwards with left and right exchanged |
| Sight.ViewReadsInBounds | src/maze.c:174-199 | from strictly inside the maze every cell that a view reads exists, side cells included |
| MazeRuns.ApplyKeepsWalls | src/maze.c:63-154 | no maze operation changes size or solid cells, and placing only absent avatars keeps avatars unique |
| MazeRuns.RunsConserveCells | src/maze.c:63-154 | from an avatar-free template every run keeps all solid cells and the number of blank cells plus avatars, and avatars stay unique when only absent ones are placed |
| MazeRuns.BorderContainsAvatars | src/maze.c:63-154 | behind a solid border avatars are strictly inside after every run |
| MazeRuns.MovesAreUndone | src/maze.c:131-154 | after a successful move the reverse move succeeds and restores the whole maze |
| Mazes.Maze.Init | src/maze.c:12-39 | a template is accepted if and only if its rows are equally long; then the maze has its size and its characters, else nothing changes |
| Mazes.Maze.SetPlayer | src/maze.c:64-77 | the array and the result code after a placement are those of the operation on values |
| Mazes.Maze.SetPlayerRandom | src/maze.c:80-120 | the two scans and the pick place the avatar where the draw says in the list of blank cells, and report that cell or failure; row and column are untouched in an empty maze and -1 in a full one |
| Mazes.Maze.RemovePlayer | src/maze.c:123-129 | only the avatar's own cell is blanked, and only if the avatar is there |
| Mazes.Maze.Move | src/maze.c:131-154 | the array and the result code after a move are those of the operation on values, on every failing path too |
| Mazes.Maze.FindTarget | src/maze.c:157-172 | the walking loop returns the value that the recursive search defines |
| Mazes.Maze.Perform | src/maze.c:63-154 | the steps of the runs in `MazeRuns` are what the methods do to the array |
| Mazes.Maze.GetView | src/maze.c:174-199 | the loop fills the buffer with exactly the slices of the view, returns their number and leaves the rest of the buffer alone |
| Display.UpdateShowsTheView | src/player.c:405-433 | from a screen that shows the previous view, incremental and full update reach the same screen: the new view padded with blanks |
| Display.IncrementalSendsExactlyTheChanges | src/player.c:417-427 | an incremental update sends one SHOW for each changed cell, none for an unchanged one and nothing else |
| Display.FullUpdateRedraws | src/player.c:406-416 | a full update is a CLEAR followed by SHOWs, exactly one for each cell of the view, and makes any screen show it |
| Display.UpdateDraws | src/player.c:405-428 | after a known view an update sends only SHOWs, exactly one for each changed cell, if the depth is the same, and redraws if not |
| Display.SessionsStayInSync | src/player.c:387-434 | after any sequence of updates and invalidations that ends in an update the client shows exactly the last view |
| Display.UpdatesKeepBoard | src/player.c:405-428 | view updates never touch the scoreboard |
| Display.ScoreFitsExactly | include/protocol.h:60-68 | the signed-byte field holds the number congruent to the score, which is the score if and only if it is at most 127 |
| GameRuns.UpdateSyncs | src/player.c:397-434 | after an update the player's screen is its padded view, and its scoreboard is as before |
| GameRuns.UnplacedIsGone | src/player.c:188-192 | once a player's recorded cell is cleared its avatar is nowhere, everyone else is where their records say, and no solid cell has changed |
| GameRuns.AnnouncedIsCurrent | src/player.c:201-235 | the announcements of a reset bring every screen and every scoreboard up to date, the new player's included, and change no record |
| GameRuns.ResetEstablishes | src/player.c:188-236 | a reset that finds room makes the whole invariant hold, whatever was out of date about that one player before |
| GameRuns.MoveKeeps | src/player.c:312-334 | a move, successful or not, keeps maze, records, screens and scoreboards in agreement |
| GameRuns.TurnKeeps | src/player.c:337-347 | turning and refreshing keep the invariant |
| GameRuns.FireKeeps | src/player.c:349-384 | a shot keeps the invariant: afterwards every scoreboard shows the new score |
| GameRuns.TakeHitKeeps | src/player.c:437-452 | taking a hit keeps the invariant: the avatar has vanished from the maze and from every screen |
| GameRuns.LogoutKeeps | src/player.c:159-185 | a logout keeps the invariant for those who stay: the avatar is off every screen and its entry off every scoreboard |
| GameRuns.JoinKeeps | src/server.c:41-59 | a login with its first reset keeps the invariant, and its player is in the game if and only if some cell was blank |
| GameRuns.WakeKeeps | src/player.c:453-456 | the reset after the sleep keeps the invariant whether or not it finds room |
| GameRuns.ChosenSlotIsFree | src/player.c:105-129 | a login never takes a slot that is in use |
| GameRuns.StepKeeps | src/server.c:26-87 | every atomic operation keeps the whole invariant |
| GameRuns.RunKeeps | src/server.c:26-87 | every sequence of atomic operations keeps the whole invariant |
| GameTheorems.ScreensShowTheMaze | src/player.c:397-434 | in every reachable state the fold of everything a client was ever sent is the padded view of the current maze from its recorded place and gaze, whatever the screen showed before it joined |
| GameTheorems.ScoreboardsAreCurrent | src/player.c:209-235 | in every reachable state every scoreboard has an entry for exactly the players in the table, equal to the score if and only if that is at most 127, and -1 for everyone else |
| GameTheorems.MazeAndRecordsAgree | src/player.c:188-200 | in every reachable state an avatar stands on a cell if and only if its player is active and recorded there, everyone is strictly inside, and the walls are the template's |
| GameTheorems.ViewsStayInBounds | src/maze.c:186-190 | in every reachable state no view of any player reads outside the maze |
| GameTheorems.StepsUndo | src/player.c:312-334 | a step forward and a step back undo each other in the maze, in all records and on every screen |
| GameTheorems.TurnsUndo | src/player.c:337-347 | turning left and right undo each other in all records and on every screen |
| GameTheorems.FireRecords | src/player.c:349-384 | a shot changes the shooter's score and the struck player's flag, and no place, gaze or view of anyone |
| GameTheorems.ShotsHitWhoeverIsAhead | src/player.c:349-384 | in every reachable state a laser hits a player if and only if that player is active, is not the shooter and is recorded at the first thing ahead |
| GameTheorems.WhatYouSeeIsWhatYouHit | src/player.c:349-384 | an avatar straight ahead on the client's own screen is the one its laser hits, and a laser never hits through something the screen shows |
| GameTheorems.ShotsAddUp | src/player.c:363-382 | n shots at someone who stays in the line of fire add n to the score and keep the invariant |
| GameTheorems.ScoreboardPromiseBreaks | src/player.c:367-382 | after n such shots from a fresh score the player's own scoreboard shows n if and only if n is at most 127; 128 shows as -128 and 255 as -1 |
| GameTheorems.ChatArrivesWholeExactly | src/player.c:458-486 | every player is sent one chat packet and nothing else changes; it carries the whole text if and only if that is shorter than 65536 bytes, else a beginning of it, and nothing of exactly 65536 |
| GameTheorems.LoginExactly | src/player.c:83-156 | letter by letter: valid are no name, an empty one or one that begins with a capital, and as avatar 0 or a letter of either case; a login succeeds if and only if its arguments are valid and fewer than 26 avatars are taken; it gets the letter asked for, small letters standing for capitals, else the first of the name, else the least free one |
| GameTheorems.JoiningNeedsRoom | src/server.c:41-59 | a client that gets a slot is in the game if and only if some cell was blank; otherwise maze and taken avatars are as before |
| GameTheorems.HitPlayersVanish | src/player.c:437-454 | a player that was hit sleeps with its flag lowered and its avatar nowhere in the maze |
| GameTheorems.HitPlayersComeBack | src/player.c:453-456 | after the sleep the player is back on a blank cell and nothing else in the maze has changed, unless no cell is blank; exactly then its session is over |
| Effects.MoveEffect | src/player.c:312-334 | a MOVE with parameter 1 goes one cell along the gaze, any other one cell against it, if and only if that cell is blank; exactly the two cells and the mover's place change, and every client is sent exactly the changes of its view; else nothing happens at all |
| Effects.TurnEffect | src/player.c:337-347 | a TURN with parameter 1 turns the step vector a quarter to the left, any other a quarter to the right; the client is sent its whole new view and nobody else anything |
| Effects.RefreshEffect | src/server.c:71-74 | a REFRESH sends the client a CLEAR and one SHOW for each cell, which draw its view on any screen, and does nothing else |
| Effects.MissEffect | src/player.c:355-356 | a shot that finds no avatar changes nothing and sends nothing |
| Effects.FireSends | src/player.c:363-382 | a shot that finds one sends everyone exactly one packet, with the shooter's letter and new score |
| Effects.LogoutEffect | src/player.c:159-185 | after a logout exactly the avatar's cell has become blank, the slot is free, and everyone who stays keeps its record and was sent the changes of its view and then once the score -1 for that letter |
| Effects.NoHitNoEffect | src/player.c:438-442 | without a pending hit the check does nothing |
| Effects.HitEffect | src/player.c:437-452 | with one, exactly the avatar's cell becomes blank, the flag goes down and the thread sleeps; everyone is sent the changes of its view, and the struck client, and nobody else, then one ALERT |
| Effects.NoPlaceEndsTheSession | src/player.c:194-198 | a reset after the sleep with no blank cell changes nothing but that the session is over |
| Effects.WakeEffect | src/player.c:188-236 | otherwise the player is on the drawn cell with its record otherwise as it was; its client is sent the whole view and one score for each player, everyone else the whole view and that player's score |
| Effects.JoinEffect | src/server.c:47-51 | a newcomer with room stands on the drawn cell, looks east, has no points, no pending hit and the name it gave or Anonymous; its client is sent READY, the whole view and one score for each player, everyone else the whole view and the score 0; no other record changes |
| Scores.StepScores | src/player.c:363-366 | no step changes a player's score but a shot of its own that finds a target, which adds one; newcomers have none |
| Scores.ScoresCountHits | src/player.c:363-366 | after every run a player's score is the number of its shots that found a target since it joined |
| Scores.ScoresOutgrowTheBoard | src/player.c:367-382 | for every n there is a reachable state in which a player has n points, and its own scoreboard shows n if and only if n is at most 127 |
| Players.Player.GetLocation | src/player.c:297-309 | a location is found if and only if the recorded cell lies in the maze |
| Players.Player.UpdateView | src/player.c:397-434 | the loops send exactly the packets of the update and cache the new view |
| Players.Player.InvalidateView | src/player.c:387-395 | the cached view is dropped and nothing else changes |
| Players.PlayerTable.UpdateEveryone | src/player.c:325-331 | the loop over the slots updates every player in the table once and changes no slot otherwise |
| Players.PlayerTable.RefreshEveryone | src/player.c:201-208 | the loop over the slots redraws every player in the table in full |
| Players.PlayerTable.Broadcast | src/player.c:376-381 | the loop sends one copy of the packet to every player in the table but the exception |
| Players.PlayerTable.TellScores | src/player.c:209-222 | the loop sends one player the scores of all players in slot order |
| Players.PlayerTable.Get | src/player.c:239-260 | the record in the avatar's slot is returned with one reference more, and a byte that is no avatar finds nobody |
| Players.PlayerTable.Unref | src/player.c:263-281 | one reference is dropped and the last one clears the slot |
| Players.PlayerTable.LogIn | src/player.c:83-156 | a login fills exactly the slot that the choice of avatars gives with a fresh record, and changes nothing when it is refused |
| Players.PlayerTable.LogOut | src/player.c:159-185 | the table and the maze after a logout are those of the operation on values, however many references other threads hold |
| Players.PlayerTable.Reset | src/player.c:188-236 | the table and the maze after a reset are those of the operation on values, with and without room |
| Players.PlayerTable.Join | src/server.c:41-59 | login, READY and first reset, and the logout when there is no room, have together the effect of the atomic join, and a refused login has none; it reports whether the player stayed |
| Players.PlayerTable.MovePlayer | src/player.c:312-334 | table, maze and result after a move are those of the operation on values, for a player without a location too |
| Players.PlayerTable.Rotate | src/player.c:337-347 | a turn changes one gaze and redraws that one client |
| Players.PlayerTable.Refresh | src/server.c:71-74 | a refresh redraws one client in full |
| Players.PlayerTable.Strike | src/player.c:356-362 | looking up, signalling and releasing the victim raises its flag and leaves all counts and slots as they were |
| Players.PlayerTable.FireLaser | src/player.c:349-384 | the table after a shot is that of the operation on values |
| Players.PlayerTable.CheckForLaserHit | src/player.c:437-454 | table and maze after a hit are those of the operation on values |
| Players.PlayerTable.SendChat | src/player.c:458-486 | every player in the table is sent the name, the bracketed avatar and the message, cut by the 16-bit size field |
| Sessions.PresenceChanges | src/server.c:41-87 | only logins and logouts change who is in the table, and then in one slot |
| Sessions.ActKeeps | src/server.c:20-91 | every step of any session keeps the game's invariant and the one-to-one match of live sessions and players |
| Sessions.EveryServerRunIsAGame | src/server.c:20-91 | whatever clients connect and send, in whatever order sessions are served, the game is reachable by atomic operations and no two live sessions share an avatar |
| Sessions.CommandsMean | src/server.c:60-80 | by packet type: 2 moves, 3 turns, 4 fires, 5 refreshes, 6 chats with the payload or nothing, any other type does nothing; the session goes on |
| Sessions.LoginMeans | src/server.c:40-59 | before login a packet of type 1, its parameter read as a byte and its payload up to the first zero as the name, joins the player of the slot the table gives, and the session serves it or ends if there was no room; other types and refused logins do nothing |
| Sessions.FailureEndsTheSession | src/server.c:33-39 | a failed reception closes the session and logs its player out |
| Sessions.InterruptionIsNoted | src/server.c:34-36 | an interrupted reception changes nothing but errno |
| Sessions.HangupEndsTheSessionExactly | src/server.c:33-39 | end of stream ends the session and removes its player if and only if errno is not left over from an interruption |
| Sessions.StaleErrnoKeepsTheSession | src/server.c:33-39 | once errno is EINTR, no sequence of actions of anybody ends or changes a session with a player, until a call of its thread fails for another reason |
| Sessions.HangUpsGoUnnoticed | src/server.c:33-39 | a client connects, one reception is interrupted, and then any number of ends of stream leave its session waiting |
| Servers.GameServer.Dispatch | src/server.c:60-80 | the switch on the packet type performs exactly the atomic operation of that packet, and none for other types |
| Servers.GameServer.Login | src/server.c:41-59 | a LOGIN packet in the lobby has the effect of the session step on game and session |
| Servers.GameServer.Serve | src/server.c:33-87 | one pass of the loop, whatever is received, has the effect of the session step on values |
| Servers.GameServer.Run | src/server.c:20-91 | every schedule of session steps, run on the objects, ends in the state of the step system, which is reachable and in which sessions and players match |
| Wire.HeaderRoundTrip | src/protocol.c:26-34 | decoding an encoded header gives it back, whatever the padding bytes |
| Wire.HeaderLayout | src/protocol.c:26-34 | the sixteen bytes by index: type, three parameters, the size high byte first, two bytes of padding, and both halves of the time stamp high bytes first |
| Wire.HeaderReading | src/protocol.c:54-60 | what a receiver reads from any sixteen bytes, in the same arithmetic |
| Wire.FrameLayout | src/protocol.c:35-43 | after the header come as many bytes of the data as the size says, or none without data |
| Wire.FrameRoundTrip | src/protocol.c:22-75 | a frame is received as the packet that was meant, with the rest of the stream untouched, if and only if its size is zero or its data was supplied |
| Wire.CutFrameFails | src/protocol.c:51-68 | a frame cut short anywhere is not received |
| Wire.StreamsDecode | src/protocol.c:22-75 | a stream of frames cut anywhere yields exactly the messages sent whole before the cut |
| Wire.StreamRoundTrip | src/protocol.c:22-75 | receiving repeatedly returns the whole list that was sent |
| Wire.Channel.WriteN | src/csapp.c:775-792 | all bytes are written in order however writes are cut up or interrupted; on failure a proper prefix was |
| Wire.Channel.ReadN | src/protocol.c:6-20 | the loop takes exactly the bytes its reads deliver, in order, up to what is asked for or there is; when a read stops it, those taken so far are in the buffer, gone from the stream and not reported |
| Wire.Channel.SendPacket | src/protocol.c:22-44 | success puts the whole frame on the wire and failure a proper prefix of it |
| Wire.Channel.RecvPacket | src/protocol.c:46-75 | success returns the first message of the stream and leaves the rest, and without interruptions it succeeds if and only if a whole frame is there |
| Wire.Channel.Exchange | src/protocol.c:22-75 | sending any supplied list and then receiving returns that list, for every way the writes and reads may be cut up and interrupted writes |
| Traffic.PacketBytes | src/player.c:404-426 | the bytes of each kind of packet: its type, the character, column and distance of a SHOW, the letter and score of a SCORE, the size and text of a CHAT |
| Traffic.ClientsReadWhatIsMeant | tests/player_test.c:273-294 | a client that reads messages by their fields comes, from the bytes of any packets, to the screen and scoreboard those packets stand for, whatever time stamps, padding and names go with them |
| Traffic.ClientsSeeTheMaze | src/player.c:397-434 | in every reachable state the bytes a client was ever sent make it show, in line d, the cells of the maze to the left, ahead and to the right of distance d by row and column, and blanks beyond the view |
| Traffic.ClientsSeeTheScores | src/player.c:209-235 | in every reachable state those bytes make its scoreboard show each player's score as a signed byte at its letter and -1 at all others |
| Registry.RegisterAddsOne | src/client_registry.c:35-45 | registering adds one occurrence of the descriptor unless all slots are taken, and the count stays the number of taken slots |
| Registry.UnregisterRemovesOne | src/client_registry.c:47-55 | unregistering removes exactly one occurrence if there is one, and the count stays the number of taken slots |
| Registry.RunRefinesMultiset | src/client_registry.c:35-61 | over every run from any well-formed state the array is a bounded multiset of descriptors and the count its size |
| Registry.RegistryIsMultiset | src/client_registry.c:14-61 | over every run of a new registry the count is the number of registered descriptors, and these are what registrations and unregistrations make of an empty bounded multiset |
| Registry.TokensConserved | src/client_registry.c:56-65 | in every run the tokens left are those posted by unregistrations that leave count zero, less the completed waits |
| Registry.WaitsNeedAPost | src/client_registry.c:63-65 | no wait returns before an unregistration has left the count at zero |
| Registry.WaitersSeeEmpty | src/client_registry.c:47-65 | if nobody registers after an unregistration that empties the registry, whoever gets past the semaphore later finds it empty |
| Registry.WaiterSeesEmptyExactly | src/client_registry.c:63-65 | in every run of a new registry, whoever gets past the semaphore finds it empty if and only if nobody has registered since an unregistration that left it empty |
| Registry.EmptyExactly | src/client_registry.c:35-61 | in every run the count is zero if and only if nobody has registered since an unregistration that left it zero, or nobody ever has |
| Registry.WaitReturnsExactly | src/client_registry.c:56-65 | in every run a wait can return if and only if more unregistrations have left the count at zero than waits have returned |
| Registry.FirstWaitReturnsExactly | include/client_registry.h:60-67 | with no client registered and no earlier wait, a wait can return if and only if some unregistration has left the count at zero |
| Registry.PromiseKeptExactly | include/client_registry.h:60-67 | in every run, that a wait can return if and only if no client is registered holds in exactly these cases: a token is left and nobody has registered since an emptying, or none is left and somebody has registered and no emptying was final |
| Registry.UnusedRegistryBlocks | src/client_registry.c:63-65 | on a registry nobody has used a wait does not return, though no client is registered |
| Registry.SecondWaiterBlocks | src/client_registry.c:56-65 | a client comes and goes and one wait returns: a second wait does not, though no client is registered |
| Registry.StaleTokenWakesEarly | src/client_registry.c:56-65 | a client comes, goes and another comes: now a wait returns although a client is registered |
| Registry.ClientRegistry.RegisterFd | src/client_registry.c:35-45 | the scan puts the descriptor into the first empty slot and counts it |
| Registry.ClientRegistry.UnregisterFd | src/client_registry.c:47-61 | the scan clears the first slot that holds the descriptor and posts a token whenever the count is zero then |
| Threads.MoveStep | src/player.c:312-323 | a move at critical-section grain keeps the invariant: between maze_move and the two stores the avatar is at the destination |
| Threads.StepKeeps | src/player.c:188-200 | every critical section of every thread keeps the agreement of maze, table and records |
| Threads.AvatarsAreWhereRecorded | src/player.c:312-334 | in every interleaving a placed avatar is at its recorded cell, or at the destination while its record is being stored, and nowhere else |
| Threads.LiveAvatarsDiffer | src/player.c:106-154 | in every interleaving live sessions hold different avatars |
| Threads.MovesCarryTheCaller | src/player.c:319-323 | in every interleaving maze_move finds the caller's own avatar on the cell it is given and nobody else is displaced |
| Threads.WallsStand | src/maze.c:131-154 | in every interleaving walls stand and avatars stay strictly inside a solid border |
| Threads.MoveAlone | src/player.c:312-323 | a move that nobody disturbs has, after its critical sections, exactly the effect of the atomic one, or none |
| Threads.PlaceAlone | src/player.c:194-200 | so has a placement: the avatar is on the drawn cell and recorded there, or the thread leaves |
| Threads.LeaveAlone | src/player.c:159-183 | and a logout: the avatar is nowhere, its slot is free and the thread is done |
| Locks.OperationsAreNeutral | src/player.c:159-486 | every operation, on every path, takes its locks in rank order or takes a player's mutex again, and releases all it takes |
| Locks.NoDeadlock | src/player.c:159-486 | in every reachable state of any number of threads, if any thread is unfinished, some thread can step |
| Locks.OperationsTake | src/player.c:83-486 | how often each operation takes players_mutex and maze_mutex, on every path |
| Locks.LocksAreExclusive | src/player.c:337-347 | no thread ever holds two different players' mutexes, no mutex has two holders, and finished threads hold none |
| Locks.EverybodyCanFinish | src/player.c:159-486 | from every reachable state some schedule brings every session to its end |
| Locks.EverySchedulingFinishes | src/player.c:159-486 | from every reachable state, every schedule that wastes no turn has at most as many turns as steps are left, and after exactly that many, and only then, everybody has finished |
| RefCounts.CountsAreReferences | src/player.c:239-281 | in every interleaving the count of a record is its owner's reference plus the counted references outstanding |
| RefCounts.TableEntriesAreAlive | src/player.c:239-251 | in every interleaving a player in the table has at least one reference and is not freed |
| RefCounts.HeldRecordsAreNotFreed | src/player.c:263-281 | in every interleaving no record is freed while a counted reference to it is held |
| RefCounts.FreedExactlyOnce | src/player.c:263-281 | in every interleaving no record is freed twice, and one without references is freed once nobody is in the middle of doing it |
| RefCounts.GetAndUnref | src/player.c:239-281 | player_get adds one reference, held by the caller, to the player in the slot, and giving it back restores everything |
| RefCounts.LogoutFrees | src/player.c:182-184 | a logout that nobody disturbs, of a player nobody else refers to, empties the slot and frees the record once |
| RefCounts.SlotsSurviveRunsExactly | src/player.c:182-184 | over whole runs, every live session is in its slot after every step if and only if no step is a second clearing of a slot that was taken again |
| RefCounts.LiveAvatarsDiffer | src/player.c:145-156 | in every interleaving from the start, live sessions have different avatars as long as no such clearing has happened |
| RefCounts.StaleClearHappens | src/player.c:267-271 | there is a run in which a last reference is about to clear a slot that was taken again, for every avatar |
| RefCounts.StaleClearSharesAvatar | src/player.c:267-271 | from every such state a clearing and a login leave two live sessions with the same avatar |

## Left out

- Sockets, the accept loop, options, signal installation, thread creation, the clock and debug output: input and output.
- `player_init`, `player_fini`, `maze_fini`, `creg_fini`, `creg_shutdown_all`: start and shutdown; `player_fini` re-enters its own mutex.
- Names in SCORE packets: the code sends the receiver's own name with another player's score (src/player.c:213, 226), so scoreboards here are scores only.
- INUSE packets: no screen or scoreboard depends on them. Time stamps are arbitrary.
- Failing writes at the level of the game: what was sent counts as received; `Wire` covers failures of a single packet.
- Failing allocation.
- The registry calls of a session (src/server.c:24, 88): `Registry` takes them as events of its own.
- A chat packet without data but with a size: a received packet never has one.
- Weak memory and torn reads: every interleaving is of whole critical sections and single stores.
- Loops over the player table that run without players_mutex, at the grain of single reads: at atomic grain a loop is part of its operation; in `Locks` it may find any players.
- The length of the sleep after a hit: it lasts as long as the schedule says.
- `IS_WALL`: no function of the server uses it.
- Grids.Grid.At: reads as blank outside the maze, where the code has no defined behaviour, because no player's view reads there.
- Mazes.Maze.GetView: asks that the cells beside the line of sight exist, because the code reads outside the array otherwise.
- Players.Player.UpdateView: asks that the player has a location and that the cells beside its line of sight exist, because the code uses uninitialised coordinates or reads outside the array otherwise.
- Players.PlayerTable.UpdateEveryone: asks of every player in the table that the cells beside its line of sight exist, because the code reads outside the array otherwise.
- Players.PlayerTable.RefreshEveryone: asks of every player in the table that the cells beside its line of sight exist, because the code reads outside the array otherwise.
- Players.PlayerTable.MovePlayer: asks of every player in the table that the cells beside its line of sight exist, because the code reads outside the array otherwise, when the mover has a location.
- Players.PlayerTable.LogOut: asks of every player in the table that the cells beside its line of sight exist, because the code reads outside the array otherwise, when the leaver has a location.
- Players.PlayerTable.CheckForLaserHit: asks of every player in the table that the cells beside its line of sight exist, because the code reads outside the array otherwise, when somebody was hit who has a location.
- Players.PlayerTable.Reset: asks of every player in the table that the cells beside its line of sight exist, because the code reads outside the array otherwise, when the draw finds a place.
- Players.PlayerTable.Join: asks of every player in the table that the cells beside its line of sight exist, because the code reads outside the array otherwise, when the login and the draw find a place.
- Players.PlayerTable.Rotate: asks that the cells beside the line of sight exist, because the code reads outside the array otherwise; here it is the line of sight after the turn.
- Players.PlayerTable.Refresh: asks that the cells beside the line of sight exist, because the code reads outside the array otherwise.
- GameRuns.JoinKeeps: a login that finds no room ends in the same step and not at the next failing reception, because until then other players' moves would update the view of a player without a location.
- GameTheorems.JoiningNeedsRoom: the same.
- Servers.GameServer.Login: the same.
- GameTheorems.StepsUndo: speaks of two moves with nothing in between, because other players may step onto the blank cell.
- The name and the cached view as separate allocations in `RefCounts`: they are freed with the record.
