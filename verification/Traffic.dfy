/** The game's packets as bytes, and a client that reads them: the packets that src/player.c and
    src/server.c fill in, and the client of tests/player_test.c:273-294 and tests/server_test.c:230-247. */
module Traffic {
  import opened Compass
  import opened Grids
  import opened Display
  import opened Games
  import opened GameTheorems
  import opened Wire
  import Sight

  // ---- what the server fills in ----

  /** What a packet carries besides its meaning: the time stamp, the padding, and the name that goes with
      some SCORE packets. */
  datatype Envelope = Envelope(sec: Word32, nsec: Word32, pad: (Byte, Byte), name: Option<Text>)

  function Stamped(ptype: Byte, param1: Int8, param2: Int8, param3: Int8, data: Option<Text>, e: Envelope): Outgoing {
    Outgoing(Header(ptype, param1, param2, param3, if data.None? then 0 else |data.value|, e.sec, e.nsec), data, e.pad)
  }

  function Form(p: Packet, e: Envelope): (o: Outgoing)
    ensures BufferHolds(o) && (o.header.size == 0 || o.data.Some?)
  {
    match p
    case Ready => Stamped(7, 0, 0, 0, None, e)
    case Clear => Stamped(9, 0, 0, 0, None, e)
    case Show(what, w, d) => Stamped(10, SignedOf(what), w, d, None, e)
    case Alert => Stamped(11, 0, 0, 0, None, e)
    case Score(avatar, score) => Stamped(12, avatar, score, 0, e.name, e)
    case Chat(text) => Stamped(13, 0, 0, 0, Some(text), e)
  }

  lemma HeaderFront(s: seq<Byte>, h: Header, pad: (Byte, Byte))
    requires |s| >= 16 && s[..16] == EncodeHeader(h, pad)
    ensures s[0] == h.ptype && s[1] == ByteOf(h.param1) && s[2] == ByteOf(h.param2) && s[3] == ByteOf(h.param3)
    ensures (s[4] as int) * 256 + s[5] == h.size
  {
    var t := EncodeHeader(h, pad);
    HeaderLayout(h, pad);
    assert s[0] == t[0] && s[1] == t[1] && s[2] == t[2] && s[3] == t[3] && s[4] == t[4] && s[5] == t[5];
  }

  /** What goes over the wire for each packet, byte by byte: the type, then for a SHOW the character, the
      column (0 left wall, 1 corridor, 2 right wall) and the distance, for a SCORE the letter and the score
      as a signed byte; then the size, and the payload of a CHAT. */
  lemma PacketBytes(p: Packet, e: Envelope, s: seq<Byte>)
    requires s == Frame(Form(p, e))
    ensures |s| >= 16 && (p.Ready? ==> s[0] == 7) && (p.Clear? ==> s[0] == 9) && (p.Alert? ==> s[0] == 11)
    ensures p.Ready? || p.Clear? || p.Alert? ==> s[1] == s[2] == s[3] == s[4] == s[5] == 0 && |s| == 16
    ensures p.Show? ==> s[0] == 10 && s[1] == p.what && s[2] == p.w && s[3] == p.d && s[4] == s[5] == 0 && |s| == 16
    ensures p.Score? ==> s[0] == 12 && s[1] == p.avatar && (s[2] - p.score) % 256 == 0 && s[3] == 0
    ensures p.Chat? ==> s[0] == 13 && s[1] == s[2] == s[3] == 0 && s[16..] == p.text && (s[4] as int) * 256 + s[5] == |p.text|
  {
    var o := Form(p, e);
    HeaderLayout(o.header, o.pad);
    FrameLayout(o);
    assert s[..16] == EncodeHeader(o.header, o.pad);
    HeaderFront(s, o.header, o.pad);
  }

  function Forms(ps: seq<Packet>, es: seq<Envelope>): (os: seq<Outgoing>)
    requires |es| == |ps|
    ensures |os| == |ps| && Supplied(os)
    decreases ps
  {
    if ps == [] then [] else [Form(ps[0], es[0])] + Forms(ps[1..], es[1..])
  }

  // ---- a client ----

  /** VIEW_DEPTH lines of three characters. */
  type Glass = v: seq<seq<Object>> | |v| == 16 && forall d :: 0 <= d < 16 ==> |v[d]| == 3
    witness seq(16, _ => [32, 32, 32])

  /** A signed character as it is stored: a byte. */
  function Character(x: Int8): Object {
    if x < 0 then x + 256 else x
  }

  function Watch(v: Glass, m: Message): Glass {
    var h := m.header;
    if h.ptype == 9 then seq(16, _ => [32, 32, 32])
    else if h.ptype == 10 && 0 <= h.param3 < 16 && 0 <= h.param2 < 3 then
      var line: seq<Object> := v[h.param3][h.param2 := Character(h.param1)];
      v[h.param3 := line]
    else v
  }

  function WatchAll(v: Glass, ms: seq<Message>): Glass
    decreases ms
  {
    if ms == [] then v else WatchAll(Watch(v, ms[0]), ms[1..])
  }

  function Count(b: Board, m: Message): Board {
    var h := m.header;
    if h.ptype == 12 && 65 <= h.param1 <= 90 then b[h.param1 - 65 := h.param2] else b
  }

  function CountAll(b: Board, ms: seq<Message>): Board
    decreases ms
  {
    if ms == [] then b else CountAll(Count(b, ms[0]), ms[1..])
  }

  // ---- they understand each other ----

  /** A line of the screen as three characters: left wall, corridor, right wall. */
  function Line(s: Slice): (l: seq<Object>)
    ensures |l| == 3
  {
    [s.left, s.corridor, s.right]
  }

  function Lines(s: Screen): Glass {
    seq(16, d requires 0 <= d < 16 => Line(s[d]))
  }

  lemma WatchDraws(s: Screen, p: Packet, e: Envelope)
    ensures Watch(Lines(s), Meant(Form(p, e))) == Lines(Draw(s, p))
  {
    if p.Clear? {
      assert Line(BLANK) == [32, 32, 32];
    } else if p.Show? {
      assert Character(SignedOf(p.what)) == p.what;
      assert Line(s[p.d])[p.w := p.what] == Line(WithCell(s[p.d], p.w, p.what));
    }
  }

  lemma AllMeantFirst(ps: seq<Packet>, es: seq<Envelope>)
    requires |es| == |ps| && ps != []
    ensures AllMeant(Forms(ps, es)) == [Meant(Form(ps[0], es[0]))] + AllMeant(Forms(ps[1..], es[1..]))
  {
    assert Forms(ps, es)[1..] == Forms(ps[1..], es[1..]);
  }

  lemma {:induction false} WatchAllDraws(s: Screen, ps: seq<Packet>, es: seq<Envelope>)
    requires |es| == |ps|
    ensures WatchAll(Lines(s), AllMeant(Forms(ps, es))) == Lines(DrawAll(s, ps))
    decreases ps
  {
    if ps != [] {
      WatchDraws(s, ps[0], es[0]);
      AllMeantFirst(ps, es);
      WatchAllDraws(Draw(s, ps[0]), ps[1..], es[1..]);
    }
  }

  lemma {:induction false} CountAllTallies(b: Board, ps: seq<Packet>, es: seq<Envelope>)
    requires |es| == |ps|
    ensures CountAll(b, AllMeant(Forms(ps, es))) == TallyAll(b, ps)
    decreases ps
  {
    if ps != [] {
      AllMeantFirst(ps, es);
      assert Count(b, Meant(Form(ps[0], es[0]))) == Tally(b, ps[0]);
      CountAllTallies(Tally(b, ps[0]), ps[1..], es[1..]);
    }
  }

  /** The bytes of any packets, whatever their time stamps, padding and names, read by a client that knows
      only the layout of messages, draw the screen and fill the scoreboard that the packets stand for. */
  lemma ClientsReadWhatIsMeant(s: Screen, b: Board, ps: seq<Packet>, es: seq<Envelope>)
    requires |es| == |ps|
    ensures var ms := DecodeAll(Stream(Forms(ps, es)));
            WatchAll(Lines(s), ms) == Lines(DrawAll(s, ps)) && CountAll(b, ms) == TallyAll(b, ps)
  {
    StreamRoundTrip(Forms(ps, es));
    WatchAllDraws(s, ps, es);
    CountAllTallies(b, ps, es);
  }

  /** From the maze to the client's eyes.  In every reachable state, take all bytes that the client of a
      player was ever sent and let it read them: character 0 of line d is then the cell to the left of
      distance d by compass, character 1 the cell straight ahead and character 2 the cell to the right,
      as far as the view goes, and blank beyond. */
  lemma ClientsSeeTheMaze(template: Grid, g: Game, k: nat, es: seq<Envelope>, d: nat)
    requires Reachable(template, g) && g.Present(k) && |es| == |g.Player(k).sent| && d < 16
    ensures var p := g.Player(k);
            var line := WatchAll(Lines(p.glass), DecodeAll(Stream(Forms(p.sent, es))))[d];
            if d < |g.grid.GetView(p.Spot(), p.gaze, 16)| then
              && line[0] == g.grid.At(Sight.LeftOf(p.Spot(), p.gaze, d))
              && line[1] == g.grid.At(Sight.StraightAhead(p.Spot(), p.gaze, d))
              && line[2] == g.grid.At(Sight.RightOf(p.Spot(), p.gaze, d))
            else line == [32, 32, 32]
  {
    var p := g.Player(k);
    ClientsReadWhatIsMeant(p.glass, EmptyBoard(), p.sent, es);
    ScreensShowTheMaze(template, g, k);
    var v := g.grid.GetView(p.Spot(), p.gaze, VIEW_DEPTH);
    assert Lines(Pad(v))[d] == Line(Pad(v)[d]);
    if d < |v| {
      Sight.ViewByCoordinates(g.grid, p.Spot(), p.gaze, VIEW_DEPTH, d);
    }
  }

  lemma ScoresRead(blank: Board, ps: seq<Packet>, es: seq<Envelope>)
    requires |es| == |ps| && forall i :: 0 <= i < 26 ==> blank[i] == -1
    ensures CountAll(blank, DecodeAll(Stream(Forms(ps, es)))) == TallyAll(EmptyBoard(), ps)
  {
    assert EmptyBoard() == blank;
    StreamRoundTrip(Forms(ps, es));
    CountAllTallies(blank, ps, es);
  }

  lemma ScoresAreSigned(template: Grid, g: Game, k: nat, j: nat)
    requires Reachable(template, g) && g.Present(k) && j < 26
    ensures var shown := TallyAll(EmptyBoard(), g.Player(k).sent)[j];
            && (g.Present(j) ==> (shown - g.Player(j).score) % 256 == 0 && -128 <= shown < 128)
            && (!g.Present(j) ==> shown == -1)
  {
    ScoreboardsAreCurrent(template, g, k, j);
    if g.Present(j) {
      ScoreFitsExactly(g.Player(j).score);
    }
  }

  /** And from the scores to its scoreboard, which starts with -1 for everybody: letter by letter the score
      of each player in the game, as a signed byte, and -1 for everybody else. */
  lemma ClientsSeeTheScores(template: Grid, g: Game, k: nat, blank: Board, es: seq<Envelope>, j: nat)
    requires Reachable(template, g) && g.Present(k) && |es| == |g.Player(k).sent| && j < 26
    requires forall i :: 0 <= i < 26 ==> blank[i] == -1
    ensures var board := CountAll(blank, DecodeAll(Stream(Forms(g.Player(k).sent, es))));
            && (g.Present(j) ==> (board[j] - g.Player(j).score) % 256 == 0 && -128 <= board[j] < 128)
            && (!g.Present(j) ==> board[j] == -1)
  {
    ScoresRead(blank, g.Player(k).sent, es);
    ScoresAreSigned(template, g, k, j);
  }
}
