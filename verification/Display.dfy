/** What a client shows: its screen is the fold of the CLEAR and SHOW packets it was sent, its
    scoreboard the fold of the SCORE packets. */
module Display {
  import opened Compass
  import opened Grids

  /** A signed byte, as in the parameter fields of a packet header. */
  type Int8 = x: int | -128 <= x < 128

  /** Conversion of an int to int8_t. */
  function ToInt8(x: int): Int8 {
    var low := x % 256;
    if low < 128 then low else low - 256
  }

  /** Which cell of a line of the view: left wall, corridor, right wall. */
  type Column = w: nat | w < 3

  /** How far away the line is. */
  type Distance = d: nat | d < VIEW_DEPTH

  /** A payload: its length fits into 16 bits. */
  type Text = t: seq<Object> | |t| < 0x1_0000

  datatype Packet =
    | Ready
    | Clear
    | Show(what: Object, w: Column, d: Distance)
    | Alert
    | Score(avatar: Avatar, score: Int8)
    | Chat(text: Text)

  // ---- the screen ----

  const BLANK := Slice(EMPTY, EMPTY, EMPTY)

  /** VIEW_DEPTH lines of three cells. */
  type Screen = s: seq<Slice> | |s| == VIEW_DEPTH witness seq(VIEW_DEPTH, _ => BLANK)

  function BlankScreen(): Screen {
    seq(VIEW_DEPTH, _ => BLANK)
  }

  function WithCell(s: Slice, w: Column, o: Object): Slice {
    if w == 0 then s.(left := o) else if w == 1 then s.(corridor := o) else s.(right := o)
  }

  function Draw(screen: Screen, p: Packet): Screen {
    match p
    case Clear => BlankScreen()
    case Show(o, w, d) => screen[d := WithCell(screen[d], w, o)]
    case _ => screen
  }

  function DrawAll(screen: Screen, ps: seq<Packet>): Screen
    decreases ps
  {
    if ps == [] then screen else DrawAll(Draw(screen, ps[0]), ps[1..])
  }

  lemma {:induction false} DrawAllAppends(screen: Screen, ps: seq<Packet>, qs: seq<Packet>)
    ensures DrawAll(screen, ps + qs) == DrawAll(DrawAll(screen, ps), qs)
    decreases ps
  {
    if ps == [] {
      assert ps + qs == qs;
    } else {
      assert (ps + qs)[1..] == ps[1..] + qs;
      DrawAllAppends(Draw(screen, ps[0]), ps[1..], qs);
    }
  }

  /** A view padded with blanks to the size of a screen. */
  function Pad(v: View): (s: Screen)
    requires |v| <= VIEW_DEPTH
    ensures forall d :: 0 <= d < VIEW_DEPTH ==> s[d] == if d < |v| then v[d] else BLANK
  {
    v + seq(VIEW_DEPTH - |v|, _ => BLANK)
  }

  // ---- the update a server sends ----

  /** Is the cell sent?  Always in a full update; in an incremental one when it differs. */
  predicate Sent(now: View, prev: Option<View>, d: nat, w: nat)
    requires d < |now| && w < 3
  {
    prev.None? || now[d].Cell(w) != (if d < |prev.value| then prev.value[d].Cell(w) else 0)
  }

  /** The SHOW packets from cell (d, w) on, line by line. */
  function Shows(now: View, prev: Option<View>, d: nat, w: nat): seq<Packet>
    requires |now| <= VIEW_DEPTH
    decreases |now| - d, 3 - w
  {
    if d >= |now| then []
    else if w >= 3 then Shows(now, prev, d + 1, 0)
    else (if Sent(now, prev, d, w) then [Show(now[d].Cell(w), w, d)] else []) + Shows(now, prev, d, w + 1)
  }

  predicate NeedsFull(now: View, prev: Option<View>) {
    prev.None? || |prev.value| != |now|
  }

  /** All packets of one update (player_update_view). */
  function UpdatePackets(now: View, prev: Option<View>): seq<Packet>
    requires |now| <= VIEW_DEPTH
  {
    if NeedsFull(now, prev) then [Clear] + Shows(now, None, 0, 0) else Shows(now, prev, 0, 0)
  }

  /** Cell (d, w) comes at or after cell (d0, w0). */
  predicate AtOrAfter(d: nat, w: nat, d0: nat, w0: nat) {
    d > d0 || (d == d0 && w >= w0)
  }

  lemma ShowDrawsOneCell(screen: Screen, o: Object, w: nat, d: nat, i: nat, j: nat)
    requires d < VIEW_DEPTH && w < 3 && i < VIEW_DEPTH && j < 3
    ensures Draw(screen, Show(o, w, d))[i].Cell(j) == if i == d && j == w then o else screen[i].Cell(j)
  {
  }

  /** The screen after the SHOW for cell (d, w), if there is one. */
  lemma ShowsUnfold(screen: Screen, now: View, prev: Option<View>, d: nat, w: nat, i: nat, j: nat)
      returns (next: Screen)
    requires d < |now| <= VIEW_DEPTH && w < 3 && i < VIEW_DEPTH && j < 3
    ensures DrawAll(screen, Shows(now, prev, d, w)) == DrawAll(next, Shows(now, prev, d, w + 1))
    ensures next[i].Cell(j) == if (i, j) == (d, w) && Sent(now, prev, d, w) then now[d].Cell(w) else screen[i].Cell(j)
  {
    var rest := Shows(now, prev, d, w + 1);
    next := screen;
    if Sent(now, prev, d, w) {
      var p := Show(now[d].Cell(w), w, d);
      ShowDrawsOneCell(screen, now[d].Cell(w), w, d, i, j);
      next := Draw(screen, p);
      assert Shows(now, prev, d, w) == [p] + rest;
      assert Shows(now, prev, d, w)[1..] == rest;
    } else {
      assert Shows(now, prev, d, w) == rest;
    }
  }

  /** What cell (i, j), now showing o, shows after the SHOWs from (d, w) on. */
  function Drawn(o: Object, now: View, prev: Option<View>, d: nat, w: nat, i: nat, j: nat): Object
    requires j < 3
  {
    if i < |now| && AtOrAfter(i, j, d, w) && Sent(now, prev, i, j) then now[i].Cell(j) else o
  }

  lemma DrawnStep(o: Object, now: View, prev: Option<View>, d: nat, w: nat, i: nat, j: nat)
    requires d < |now| && w < 3 && j < 3
    ensures Drawn(o, now, prev, d, w, i, j) ==
            Drawn(if (i, j) == (d, w) && Sent(now, prev, d, w) then now[d].Cell(w) else o, now, prev, d, w + 1, i, j)
  {
  }

  lemma DrawnLine(o: Object, now: View, prev: Option<View>, d: nat, i: nat, j: nat)
    requires j < 3
    ensures Drawn(o, now, prev, d, 3, i, j) == Drawn(o, now, prev, d + 1, 0, i, j)
  {
  }

  /** Drawing the SHOWs from (d, w) on puts every sent cell in place and touches no other. */
  lemma {:induction false} ShowsDrawCell(screen: Screen, now: View, prev: Option<View>, d: nat, w: nat, i: nat, j: nat)
    requires |now| <= VIEW_DEPTH && w <= 3 && i < VIEW_DEPTH && j < 3
    ensures DrawAll(screen, Shows(now, prev, d, w))[i].Cell(j) == Drawn(screen[i].Cell(j), now, prev, d, w, i, j)
    decreases |now| - d, 3 - w
  {
    if d >= |now| {
      assert Shows(now, prev, d, w) == [];
    } else if w == 3 {
      assert Shows(now, prev, d, w) == Shows(now, prev, d + 1, 0);
      DrawnLine(screen[i].Cell(j), now, prev, d, i, j);
      ShowsDrawCell(screen, now, prev, d + 1, 0, i, j);
    } else {
      var next := ShowsUnfold(screen, now, prev, d, w, i, j);
      DrawnStep(screen[i].Cell(j), now, prev, d, w, i, j);
      ShowsDrawCell(next, now, prev, d, w + 1, i, j);
    }
  }

  lemma SliceByCells(s: Slice, t: Slice)
    requires forall w: nat :: w < 3 ==> s.Cell(w) == t.Cell(w)
    ensures s == t
  {
    assert s.Cell(0) == t.Cell(0) && s.Cell(1) == t.Cell(1) && s.Cell(2) == t.Cell(2);
  }

  /** The screen already shows the previous view, if there is one. */
  ghost predicate ScreenShows(screen: Screen, prev: Option<View>) {
    prev.Some? ==> |prev.value| <= VIEW_DEPTH && screen == Pad(prev.value)
  }

  lemma UpdateShowsNew(screen: Screen, now: View, prev: Option<View>)
    requires |now| <= VIEW_DEPTH && ScreenShows(screen, prev)
    ensures DrawAll(screen, UpdatePackets(now, prev)) == Pad(now)
  {
    var final := DrawAll(screen, UpdatePackets(now, prev));
    if NeedsFull(now, prev) {
      assert UpdatePackets(now, prev)[1..] == Shows(now, None, 0, 0);
    }
    forall i: nat | i < VIEW_DEPTH ensures final[i] == Pad(now)[i] {
      forall j: nat | j < 3 ensures final[i].Cell(j) == Pad(now)[i].Cell(j) {
        if NeedsFull(now, prev) {
          ShowsDrawCell(BlankScreen(), now, None, 0, 0, i, j);
        } else {
          ShowsDrawCell(screen, now, prev, 0, 0, i, j);
        }
      }
      SliceByCells(final[i], Pad(now)[i]);
    }
  }

  /** An update leaves the screen showing the new view and nothing beyond it, whether it is full or
      incremental: in particular the incremental branch reaches what CLEAR and every SHOW would. */
  lemma UpdateShowsTheView(screen: Screen, now: View, prev: Option<View>)
    requires |now| <= VIEW_DEPTH && ScreenShows(screen, prev)
    ensures DrawAll(screen, UpdatePackets(now, prev)) == Pad(now)
    ensures DrawAll(screen, UpdatePackets(now, prev)) == DrawAll(screen, UpdatePackets(now, None))
  {
    UpdateShowsNew(screen, now, prev);
    UpdateShowsNew(screen, now, None);
  }

  // ---- how much is sent ----

  function IsShowOf(p: Packet, d: nat, w: nat): bool {
    p.Show? && p.d == d && p.w == w
  }

  /** How many packets of the list are SHOWs of cell (d, w). */
  function ShowCount(ps: seq<Packet>, d: nat, w: nat): nat {
    if ps == [] then 0 else (if IsShowOf(ps[0], d, w) then 1 else 0) + ShowCount(ps[1..], d, w)
  }

  /** How often cell (i, j) is shown by the SHOWs from (d, w) on. */
  function Times(now: View, prev: Option<View>, d: nat, w: nat, i: nat, j: nat): nat
    requires j < 3
  {
    if i < |now| && AtOrAfter(i, j, d, w) && Sent(now, prev, i, j) then 1 else 0
  }

  lemma TimesStep(now: View, prev: Option<View>, d: nat, w: nat, i: nat, j: nat)
    requires d < |now| && j < 3
    ensures w < 3 ==> Times(now, prev, d, w, i, j) ==
                      (if (i, j) == (d, w) && Sent(now, prev, d, w) then 1 else 0) + Times(now, prev, d, w + 1, i, j)
    ensures w == 3 ==> Times(now, prev, d, w, i, j) == Times(now, prev, d + 1, 0, i, j)
  {
  }

  lemma CountUnfold(now: View, prev: Option<View>, d: nat, w: nat, i: nat, j: nat)
    requires d < |now| <= VIEW_DEPTH && w < 3
    ensures ShowCount(Shows(now, prev, d, w), i, j) ==
            (if (i, j) == (d, w) && Sent(now, prev, d, w) then 1 else 0) + ShowCount(Shows(now, prev, d, w + 1), i, j)
  {
    var rest := Shows(now, prev, d, w + 1);
    if Sent(now, prev, d, w) {
      assert Shows(now, prev, d, w)[1..] == rest;
    } else {
      assert Shows(now, prev, d, w) == rest;
    }
  }

  lemma {:induction false} ShowsCountCells(now: View, prev: Option<View>, d: nat, w: nat, i: nat, j: nat)
    requires |now| <= VIEW_DEPTH && w <= 3 && j < 3
    ensures ShowCount(Shows(now, prev, d, w), i, j) == Times(now, prev, d, w, i, j)
    decreases |now| - d, 3 - w
  {
    if d >= |now| {
      assert Shows(now, prev, d, w) == [];
    } else {
      TimesStep(now, prev, d, w, i, j);
      if w == 3 {
        assert Shows(now, prev, d, w) == Shows(now, prev, d + 1, 0);
        ShowsCountCells(now, prev, d + 1, 0, i, j);
      } else {
        CountUnfold(now, prev, d, w, i, j);
        ShowsCountCells(now, prev, d, w + 1, i, j);
      }
    }
  }

  lemma {:induction false} ShowsAreShows(now: View, prev: Option<View>, d: nat, w: nat)
    requires |now| <= VIEW_DEPTH && w <= 3
    ensures forall p :: p in Shows(now, prev, d, w) ==> p.Show? && p.d < |now|
    decreases |now| - d, 3 - w
  {
    if d < |now| {
      if w == 3 {
        ShowsAreShows(now, prev, d + 1, 0);
      } else {
        ShowsAreShows(now, prev, d, w + 1);
      }
    }
  }

  /** An incremental update never clears and sends exactly one SHOW for each cell of the view that
      changed and none for a cell that did not. */
  lemma IncrementalSendsExactlyTheChanges(now: View, prev: Option<View>, d: nat, w: nat)
    requires |now| <= VIEW_DEPTH && !NeedsFull(now, prev) && w < 3
    ensures forall p :: p in UpdatePackets(now, prev) ==> p.Show? && p.d < |now|
    ensures ShowCount(UpdatePackets(now, prev), d, w) ==
            if d < |now| && now[d].Cell(w) != prev.value[d].Cell(w) then 1 else 0
  {
    ShowsAreShows(now, prev, 0, 0);
    ShowsCountCells(now, prev, 0, 0, d, w);
  }

  /** The list draws the view from nothing: a CLEAR, then SHOWs, one for each cell of the view, and any
      screen comes to show it. */
  ghost predicate Redraws(ps: seq<Packet>, now: View) {
    && ps != [] && ps[0] == Clear && |now| <= VIEW_DEPTH
    && (forall i :: 0 < i < |ps| ==> ps[i].Show? && ps[i].d < |now|)
    && (forall d, w :: 0 <= d < |now| && 0 <= w < 3 ==> ShowCount(ps, d, w) == 1)
    && (forall s: Screen :: DrawAll(s, ps) == Pad(now))
  }

  /** The list draws the changes from one view to another of the same depth: SHOWs only, one for each
      cell that differs and none for a cell that does not. */
  ghost predicate DrawsChanges(ps: seq<Packet>, was: View, now: View) {
    && |was| == |now| <= VIEW_DEPTH
    && (forall p :: p in ps ==> p.Show? && p.d < |now|)
    && (forall d, w :: 0 <= d < |now| && 0 <= w < 3 ==>
          ShowCount(ps, d, w) == if now[d].Cell(w) != was[d].Cell(w) then 1 else 0)
    && DrawAll(Pad(was), ps) == Pad(now)
  }

  /** What a client is sent when its view goes from one to the other. */
  ghost predicate DrawsUpdate(ps: seq<Packet>, was: View, now: View) {
    if |was| == |now| then DrawsChanges(ps, was, now) else Redraws(ps, now)
  }

  /** A full update is a CLEAR and one SHOW for each cell, and draws the view on any screen. */
  lemma FullUpdateRedraws(now: View, prev: Option<View>)
    requires |now| <= VIEW_DEPTH && NeedsFull(now, prev)
    ensures Redraws(UpdatePackets(now, prev), now)
  {
    var ps, shows := UpdatePackets(now, prev), Shows(now, None, 0, 0);
    assert ps[1..] == shows;
    ShowsAreShows(now, None, 0, 0);
    forall d: nat, w: nat | d < |now| && w < 3 ensures ShowCount(ps, d, w) == 1 {
      ShowsCountCells(now, None, 0, 0, d, w);
    }
    forall s: Screen ensures DrawAll(s, ps) == Pad(now) {
      UpdateShowsNew(s, now, None);
    }
    forall i | 0 < i < |ps| ensures ps[i].Show? && ps[i].d < |now| {
      assert ps[i] == shows[i - 1] && shows[i - 1] in shows;
    }
  }

  /** An update after a known view draws the changes when the depths are equal, and all when not. */
  lemma UpdateDraws(was: View, now: View)
    requires |was| <= VIEW_DEPTH && |now| <= VIEW_DEPTH
    ensures DrawsUpdate(UpdatePackets(now, Some(was)), was, now)
  {
    if |was| == |now| {
      var ps := UpdatePackets(now, Some(was));
      ShowsAreShows(now, Some(was), 0, 0);
      forall d: nat, w: nat | d < |now| && w < 3
        ensures ShowCount(ps, d, w) == if now[d].Cell(w) != was[d].Cell(w) then 1 else 0
      {
        IncrementalSendsExactlyTheChanges(now, Some(was), d, w);
      }
      UpdateShowsNew(Pad(was), now, Some(was));
    } else {
      FullUpdateRedraws(now, Some(was));
    }
  }

  /** Any sequence of updates (Some) and invalidations (None), from any screen: after the last
      update the client shows exactly the last view. */
  function Session(prev: Option<View>, views: seq<Option<View>>): seq<Packet>
    requires forall i :: 0 <= i < |views| && views[i].Some? ==> |views[i].value| <= VIEW_DEPTH
    decreases views
  {
    if views == [] then []
    else if views[0].None? then Session(None, views[1..])
    else UpdatePackets(views[0].value, prev) + Session(views[0], views[1..])
  }

  lemma {:induction false} SessionsStayInSync(screen: Screen, prev: Option<View>, views: seq<Option<View>>)
    requires forall i :: 0 <= i < |views| && views[i].Some? ==> |views[i].value| <= VIEW_DEPTH
    requires ScreenShows(screen, prev) && views != [] && views[|views| - 1].Some?
    ensures DrawAll(screen, Session(prev, views)) == Pad(views[|views| - 1].value)
    decreases |views|
  {
    if views[0].Some? {
      var burst := UpdatePackets(views[0].value, prev);
      UpdateShowsTheView(screen, views[0].value, prev);
      DrawAllAppends(screen, burst, Session(views[0], views[1..]));
      if |views| > 1 {
        SessionsStayInSync(DrawAll(screen, burst), views[0], views[1..]);
      }
    } else {
      SessionsStayInSync(screen, None, views[1..]);
    }
  }

  // ---- the scoreboard ----

  /** One entry per avatar; -1 means not playing. */
  type Board = b: seq<int> | |b| == NUM_AVATARS witness seq(NUM_AVATARS, _ => -1)

  function EmptyBoard(): Board {
    seq(NUM_AVATARS, _ => -1)
  }

  function Tally(b: Board, p: Packet): Board {
    if p.Score? then b[p.avatar - 65 := p.score] else b
  }

  function TallyAll(b: Board, ps: seq<Packet>): Board
    decreases ps
  {
    if ps == [] then b else TallyAll(Tally(b, ps[0]), ps[1..])
  }

  lemma {:induction false} TallyAllAppends(b: Board, ps: seq<Packet>, qs: seq<Packet>)
    ensures TallyAll(b, ps + qs) == TallyAll(TallyAll(b, ps), qs)
    decreases ps
  {
    if ps == [] {
      assert ps + qs == qs;
    } else {
      assert (ps + qs)[1..] == ps[1..] + qs;
      TallyAllAppends(Tally(b, ps[0]), ps[1..], qs);
    }
  }

  /** Packets that are not about scores leave the scoreboard alone. */
  lemma {:induction false} OtherPacketsKeepBoard(b: Board, ps: seq<Packet>)
    requires forall p :: p in ps ==> !p.Score?
    ensures TallyAll(b, ps) == b
    decreases ps
  {
    if ps != [] {
      OtherPacketsKeepBoard(b, ps[1..]);
    }
  }

  /** Packets that are not about the view leave the screen alone. */
  lemma {:induction false} OtherPacketsKeepScreen(screen: Screen, ps: seq<Packet>)
    requires forall p :: p in ps ==> !p.Clear? && !p.Show?
    ensures DrawAll(screen, ps) == screen
    decreases ps
  {
    if ps != [] {
      OtherPacketsKeepScreen(screen, ps[1..]);
    }
  }

  lemma UpdatesKeepBoard(b: Board, now: View, prev: Option<View>)
    requires |now| <= VIEW_DEPTH
    ensures TallyAll(b, UpdatePackets(now, prev)) == b
  {
    ShowsAreShows(now, None, 0, 0);
    ShowsAreShows(now, prev, 0, 0);
    OtherPacketsKeepBoard(b, UpdatePackets(now, prev));
  }

  /** The signed byte is congruent to the score, so a score survives exactly when it is at most 127. */
  lemma ScoreFitsExactly(score: nat)
    ensures (ToInt8(score) - score) % 256 == 0
    ensures ToInt8(score) == score <==> score <= 127
    ensures ToInt8(128) == -128 && ToInt8(255) == -1
  {
  }
}
