/** The configuration of the heroes-vs-monsters game (T2): the records of
    `config.h` and `leerConfig`, which fills a `GameConfig` from a file of
    keyword-led records.  The file is given here already split into tokens
    (words, integers and `(x,y)` points); opening it is a parameter that may
    fail. */
module Config {
  import opened Decimal

  const MAX_PATH: int := 100
  const MAX_MONSTERS: int := 20
  const MAX_HEROES: int := 5

  datatype Point = Point(x: int, y: int)

  /** `Hero`: `path` is the whole `Point path[MAX_PATH]` array, of which the
      first `pathLen` entries are the route; the C `int` flags are booleans. */
  datatype Hero = Hero(id: int, hp: int, attack: int, range: int, start: Point,
                       path: seq<Point>, pathLen: int, posActual: Point,
                       enCombate: bool, pathStep: int, pathFinished: bool, escapado: bool)

  /** `Monster`: `targetHeroId` is an index into the heroes, -1 for none. */
  datatype Monster = Monster(id: int, hp: int, attack: int, vision: int, range: int,
                             pos: Point, alertado: bool, targetHeroId: int)

  /** The contents of a `GameConfig` (without its mutex). */
  datatype Cfg = Cfg(width: int, height: int, heroes: seq<Hero>, heroCount: int,
                     monsters: seq<Monster>, monsterCount: int, juegoActivo: bool)

  /** What one `fscanf` conversion of the file sees next. */
  datatype Tok = Word(w: string) | Num(n: int) | Pt(p: Point)

  /** Both tables have their fixed sizes and every hero its full path array. */
  predicate Shaped(c: Cfg) {
    && |c.heroes| == MAX_HEROES && |c.monsters| == MAX_MONSTERS
    && forall i :: 0 <= i < |c.heroes| ==> |c.heroes[i].path| == MAX_PATH
  }

  /** The `GameConfig` the game threads share. */
  class GameConfig {
    var width: int
    var height: int
    const heroes: array<Hero>
    var heroCount: int
    const monsters: array<Monster>
    var monsterCount: int
    var juegoActivo: bool

    ghost function State(): Cfg
      reads this, heroes, monsters
    {
      Cfg(width, height, heroes[..], heroCount, monsters[..], monsterCount, juegoActivo)
    }

    ghost predicate Valid()
      reads this, heroes, monsters
    {
      Shaped(State())
    }

    /** A `GameConfig` as it sits in memory before anything is read: the
        arguments are whatever the storage holds. */
    constructor (hs: seq<Hero>, ms: seq<Monster>, w: int, h: int, hc: int, mc: int, activo: bool)
      requires Shaped(Cfg(w, h, hs, hc, ms, mc, activo))
      ensures Valid() && State() == Cfg(w, h, hs, hc, ms, mc, activo)
      ensures fresh(heroes) && fresh(monsters)
    {
      width, height, heroCount, monsterCount, juegoActivo := w, h, hc, mc, activo;
      heroes := new Hero[MAX_HEROES](i requires 0 <= i < MAX_HEROES => hs[i]);
      monsters := new Monster[MAX_MONSTERS](i requires 0 <= i < MAX_MONSTERS => ms[i]);
    }
  }

  // ---------- the records, as functions of the token sequence ----------

  /** `fscanf("%d")` at `p`: the integer and the position after it, or
      `dflt` and `p` unchanged when the next token is not an integer. */
  function ReadInt(toks: seq<Tok>, p: nat, dflt: int): (r: (int, nat))
    requires p <= |toks|
    ensures p <= r.1 <= |toks|
    ensures r.1 == p + 1 <==> p < |toks| && toks[p].Num?
    ensures r.1 == p + 1 ==> r.0 == toks[p].n
    ensures r.1 == p ==> r.0 == dflt
  {
    if p < |toks| && toks[p].Num? then (toks[p].n, p + 1) else (dflt, p)
  }

  /** `fscanf("%d %d")` at `p`: the second integer is only read when the
      first one was. */
  function ReadPair(toks: seq<Tok>, p: nat, a: int, b: int): (r: (int, int, nat))
    requires p <= |toks|
    ensures p <= r.2 <= |toks| && r.2 <= p + 2
    ensures r.2 != p <==> p < |toks| && toks[p].Num?
    ensures r.2 == p + 2 <==> p + 1 < |toks| && toks[p].Num? && toks[p + 1].Num?
    ensures r.2 == p ==> r.0 == a && r.1 == b
    ensures r.2 == p + 1 ==> toks[p].Num? && r.0 == toks[p].n && r.1 == b
    ensures r.2 == p + 2 ==> toks[p].Num? && toks[p + 1].Num? && r.0 == toks[p].n && r.1 == toks[p + 1].n
  {
    var (x, q) := ReadInt(toks, p, a);
    if q == p then (a, b, p)
    else
      var (y, q') := ReadInt(toks, q, b);
      (x, y, q')
  }

  /** The points of a `PATH` field: the run of points from `q` appended to
      `acc`, stopping at the first token that is not a point or once
      `MAX_PATH` points are stored. */
  function PathFrom(toks: seq<Tok>, q: nat, acc: seq<Point>): (r: seq<Point>)
    requires q <= |toks| && |acc| <= MAX_PATH
    ensures |acc| <= |r| <= MAX_PATH && r[..|acc|] == acc
    ensures q + |r| - |acc| <= |toks|
    ensures forall j :: |acc| <= j < |r| ==> toks[q + j - |acc|] == Pt(r[j])
    ensures |r| < MAX_PATH ==> q + |r| - |acc| == |toks| || !toks[q + |r| - |acc|].Pt?
    decreases |toks| - q
  {
    if |acc| == MAX_PATH || q == |toks| || !toks[q].Pt? then acc
    else PathFrom(toks, q + 1, acc + [toks[q].p])
  }

  /** The hero after its `PATH` field: the first `|pts|` entries of its
      path array overwritten and `pathLen` set to their number. */
  function WithPath(h: Hero, pts: seq<Point>): (r: Hero)
    requires |pts| <= |h.path|
    ensures |r.path| == |h.path| && r.pathLen == |pts| && r.path[..|pts|] == pts
    ensures r.path[|pts|..] == h.path[|pts|..]
    ensures r == h.(path := r.path, pathLen := |pts|)
  {
    h.(path := pts + h.path[|pts|..], pathLen := |pts|)
  }

  /** The field of a `HERO` record named by `campo`, read from `p`. */
  function HeroField(h: Hero, campo: Tok, toks: seq<Tok>, p: nat): (r: (Hero, nat))
    requires p <= |toks| && |h.path| == MAX_PATH
    ensures p <= r.1 <= |toks| && |r.0.path| == MAX_PATH
    ensures r.0.id == h.id && r.0.pathStep == h.pathStep
    ensures r.0.enCombate == h.enCombate && r.0.pathFinished == h.pathFinished
  {
    match campo
    case Word("HP") => var (v, q) := ReadInt(toks, p, h.hp); (h.(hp := v), q)
    case Word("ATTACK_DAMAGE") => var (v, q) := ReadInt(toks, p, h.attack); (h.(attack := v), q)
    case Word("ATTACK_RANGE") => var (v, q) := ReadInt(toks, p, h.range); (h.(range := v), q)
    case Word("START") =>
      var (x, y, q) := ReadPair(toks, p, h.start.x, h.start.y); (h.(start := Point(x, y)), q)
    case Word("PATH") =>
      var pts := PathFrom(toks, p, []);
      (WithPath(h, pts), p + |pts|)
    case _ => (h, p)
  }

  /** The field of a `MONSTER` record named by `campo`, read from `p`. */
  function MonsterField(m: Monster, campo: Tok, toks: seq<Tok>, p: nat): (r: (Monster, nat))
    requires p <= |toks|
    ensures p <= r.1 <= |toks|
    ensures r.0.id == m.id && r.0.alertado == m.alertado && r.0.targetHeroId == m.targetHeroId
  {
    match campo
    case Word("HP") => var (v, q) := ReadInt(toks, p, m.hp); (m.(hp := v), q)
    case Word("ATTACK_DAMAGE") => var (v, q) := ReadInt(toks, p, m.attack); (m.(attack := v), q)
    case Word("VISION_RANGE") => var (v, q) := ReadInt(toks, p, m.vision); (m.(vision := v), q)
    case Word("ATTACK_RANGE") => var (v, q) := ReadInt(toks, p, m.range); (m.(range := v), q)
    case Word("COORDS") =>
      var (x, y, q) := ReadPair(toks, p, m.pos.x, m.pos.y); (m.(pos := Point(x, y)), q)
    case _ => (m, p)
  }

  /** The field name of a record: the token after the id, if any. */
  function Campo(toks: seq<Tok>, p: nat): Tok
    requires p <= |toks|
  {
    if p < |toks| then toks[p] else Word("")
  }

  /** A `HERO <id> <campo> ...` record whose `HERO` is at `pos`.  Without an
      integer id nothing is read; an id outside `1..MAX_HEROES` skips the
      record; otherwise slot `id - 1` gets the id, its step, combat and
      finished flags reset, and then the named field. */
  function HeroRecord(c: Cfg, toks: seq<Tok>, pos: nat): (r: (Cfg, nat))
    requires Shaped(c) && pos < |toks|
    ensures pos < r.1 <= |toks| && Shaped(r.0)
    ensures r.0.monsters == c.monsters && r.0.juegoActivo == c.juegoActivo
    ensures r.0.width == c.width && r.0.height == c.height
    ensures r.0.heroCount == c.heroCount && r.0.monsterCount == c.monsterCount
    ensures var id := ReadInt(toks, pos + 1, 0);
            id.1 == pos + 1 || id.0 < 1 || id.0 > MAX_HEROES ==> r.0 == c
    ensures var id := ReadInt(toks, pos + 1, 0).0;
            ReadInt(toks, pos + 1, 0).1 == pos + 2 && 1 <= id <= MAX_HEROES ==>
              && (forall i :: 0 <= i < MAX_HEROES && i != id - 1 ==> r.0.heroes[i] == c.heroes[i])
              && r.0.heroes[id - 1].id == id && r.0.heroes[id - 1].pathStep == 0
              && !r.0.heroes[id - 1].enCombate && !r.0.heroes[id - 1].pathFinished
              && (r.0.heroes[id - 1], r.1) ==
                   HeroField(c.heroes[id - 1].(id := id, pathStep := 0, enCombate := false, pathFinished := false),
                             Campo(toks, pos + 2), toks, if pos + 2 < |toks| then pos + 3 else pos + 2)
  {
    if !(pos + 1 < |toks| && toks[pos + 1].Num?) then (c, pos + 1)
    else
      var id := toks[pos + 1].n;
      var q := if pos + 2 < |toks| then pos + 3 else pos + 2;
      if id <= 0 || id > MAX_HEROES then (c, q)
      else
        var h := c.heroes[id - 1].(id := id, pathStep := 0, enCombate := false, pathFinished := false);
        var r := HeroField(h, Campo(toks, pos + 2), toks, q);
        (c.(heroes := c.heroes[id - 1 := r.0]), r.1)
  }

  /** A `MONSTER <id> <campo> ...` record whose `MONSTER` is at `pos`: as for
      heroes, with ids `1..MAX_MONSTERS`; the slot gets the id, no target
      and not alerted, and then the named field. */
  function MonsterRecord(c: Cfg, toks: seq<Tok>, pos: nat): (r: (Cfg, nat))
    requires Shaped(c) && pos < |toks|
    ensures pos < r.1 <= |toks| && Shaped(r.0)
    ensures r.0.heroes == c.heroes && r.0.juegoActivo == c.juegoActivo
    ensures r.0.width == c.width && r.0.height == c.height
    ensures r.0.heroCount == c.heroCount && r.0.monsterCount == c.monsterCount
    ensures var id := ReadInt(toks, pos + 1, 0);
            id.1 == pos + 1 || id.0 < 1 || id.0 > MAX_MONSTERS ==> r.0 == c
    ensures var id := ReadInt(toks, pos + 1, 0).0;
            ReadInt(toks, pos + 1, 0).1 == pos + 2 && 1 <= id <= MAX_MONSTERS ==>
              && (forall i :: 0 <= i < MAX_MONSTERS && i != id - 1 ==> r.0.monsters[i] == c.monsters[i])
              && r.0.monsters[id - 1].id == id && r.0.monsters[id - 1].targetHeroId == -1
              && !r.0.monsters[id - 1].alertado
              && (r.0.monsters[id - 1], r.1) ==
                   MonsterField(c.monsters[id - 1].(id := id, targetHeroId := -1, alertado := false),
                                Campo(toks, pos + 2), toks, if pos + 2 < |toks| then pos + 3 else pos + 2)
  {
    if !(pos + 1 < |toks| && toks[pos + 1].Num?) then (c, pos + 1)
    else
      var id := toks[pos + 1].n;
      var q := if pos + 2 < |toks| then pos + 3 else pos + 2;
      if id <= 0 || id > MAX_MONSTERS then (c, q)
      else
        var m := c.monsters[id - 1].(id := id, targetHeroId := -1, alertado := false);
        var r := MonsterField(m, Campo(toks, pos + 2), toks, q);
        (c.(monsters := c.monsters[id - 1 := r.0]), r.1)
  }

  /** One pass of the reading loop at `pos`: the record its word starts, or
      the word skipped when it is no keyword. */
  function Step(c: Cfg, toks: seq<Tok>, pos: nat): (r: (Cfg, nat))
    requires Shaped(c) && pos < |toks|
    ensures pos < r.1 <= |toks| && Shaped(r.0) && r.0.juegoActivo == c.juegoActivo
    ensures toks[pos] != Word("GRID_SIZE") ==> r.0.width == c.width && r.0.height == c.height
    ensures toks[pos] != Word("HERO_COUNT") ==> r.0.heroCount == c.heroCount
    ensures toks[pos] != Word("MONSTER_COUNT") ==> r.0.monsterCount == c.monsterCount
    ensures toks[pos] != Word("HERO") ==> r.0.heroes == c.heroes
    ensures toks[pos] != Word("MONSTER") ==> r.0.monsters == c.monsters
    ensures toks[pos] == Word("GRID_SIZE") ==> (r.0.width, r.0.height, r.1) == ReadPair(toks, pos + 1, c.width, c.height)
    ensures toks[pos] == Word("HERO_COUNT") ==> (r.0.heroCount, r.1) == ReadInt(toks, pos + 1, c.heroCount)
    ensures toks[pos] == Word("MONSTER_COUNT") ==> (r.0.monsterCount, r.1) == ReadInt(toks, pos + 1, c.monsterCount)
    ensures toks[pos] !in {Word("GRID_SIZE"), Word("HERO_COUNT"), Word("MONSTER_COUNT"), Word("HERO"), Word("MONSTER")}
            ==> r == (c, pos + 1)
  {
    match toks[pos]
    case Word("GRID_SIZE") =>
      var (w, h, q) := ReadPair(toks, pos + 1, c.width, c.height); (c.(width := w, height := h), q)
    case Word("HERO_COUNT") => var (n, q) := ReadInt(toks, pos + 1, c.heroCount); (c.(heroCount := n), q)
    case Word("MONSTER_COUNT") => var (n, q) := ReadInt(toks, pos + 1, c.monsterCount); (c.(monsterCount := n), q)
    case Word("HERO") => HeroRecord(c, toks, pos)
    case Word("MONSTER") => MonsterRecord(c, toks, pos)
    case _ => (c, pos + 1)
  }

  /** The reading loop from `pos` to the end of the file. */
  function ReadFrom(c: Cfg, toks: seq<Tok>, pos: nat): (r: Cfg)
    requires Shaped(c) && pos <= |toks|
    ensures Shaped(r) && r.juegoActivo == c.juegoActivo
    decreases |toks| - pos
  {
    if pos == |toks| then c
    else
      var (c', q) := Step(c, toks, pos);
      ReadFrom(c', toks, q)
  }

  /** The fields `leerConfig` clears before reading. */
  function Reset(c: Cfg): Cfg {
    c.(width := 0, height := 0, monsterCount := 0, heroCount := 0)
  }

  /** What `leerConfig` leaves in the configuration: `None` is a file that
      could not be opened. */
  function ReadConfig(c: Cfg, file: Option<seq<Tok>>): Cfg
    requires Shaped(c)
  {
    match file
    case None => c
    case Some(toks) => ReadFrom(Reset(c), toks, 0)
  }

  // ---------- properties of reading ----------

  /** A field set only by one keyword keeps the value it had when that
      keyword is not among the remaining tokens. */
  lemma {:induction false} UntouchedWithoutKeyword(c: Cfg, toks: seq<Tok>, pos: nat)
    requires Shaped(c) && pos <= |toks|
    ensures (forall i :: pos <= i < |toks| ==> toks[i] != Word("GRID_SIZE")) ==>
              ReadFrom(c, toks, pos).width == c.width && ReadFrom(c, toks, pos).height == c.height
    ensures (forall i :: pos <= i < |toks| ==> toks[i] != Word("HERO_COUNT")) ==>
              ReadFrom(c, toks, pos).heroCount == c.heroCount
    ensures (forall i :: pos <= i < |toks| ==> toks[i] != Word("MONSTER_COUNT")) ==>
              ReadFrom(c, toks, pos).monsterCount == c.monsterCount
    decreases |toks| - pos
  {
    if pos < |toks| {
      var (c', q) := Step(c, toks, pos);
      UntouchedWithoutKeyword(c', toks, q);
    }
  }

  /** The grid size and both counts start from zero: a file that never
      sets one of them leaves it 0, whatever the storage held. */
  lemma CountsStartAtZero(c: Cfg, toks: seq<Tok>)
    requires Shaped(c)
    ensures (forall i :: 0 <= i < |toks| ==> toks[i] != Word("HERO_COUNT")) ==>
              ReadConfig(c, Some(toks)).heroCount == 0
    ensures (forall i :: 0 <= i < |toks| ==> toks[i] != Word("MONSTER_COUNT")) ==>
              ReadConfig(c, Some(toks)).monsterCount == 0
    ensures (forall i :: 0 <= i < |toks| ==> toks[i] != Word("GRID_SIZE")) ==>
              ReadConfig(c, Some(toks)).width == 0 && ReadConfig(c, Some(toks)).height == 0
  {
    UntouchedWithoutKeyword(Reset(c), toks, 0);
  }

  /** A `PATH` field stores its points in order, at most `MAX_PATH` of them,
      and sets `pathLen` to their number, whatever route the hero had. */
  lemma PathStored(h: Hero, toks: seq<Tok>, p: nat)
    requires p <= |toks| && |h.path| == MAX_PATH
    ensures var (h', q) := HeroField(h, Word("PATH"), toks, p);
            && 0 <= h'.pathLen <= MAX_PATH && q == p + h'.pathLen
            && (forall j :: 0 <= j < h'.pathLen ==> toks[p + j] == Pt(h'.path[j]))
            && (h'.pathLen < MAX_PATH ==> q == |toks| || !toks[q].Pt?)
  {
    var pts := PathFrom(toks, p, []);
    var h' := WithPath(h, pts);
    forall j | 0 <= j < h'.pathLen
      ensures toks[p + j] == Pt(h'.path[j])
    {
      assert h'.path[j] == h'.path[..|pts|][j] == pts[j];
    }
  }

  /** A numeric field takes the value of its record, whatever an earlier
      record for the same field had stored. */
  lemma LaterRecordWins(h: Hero, m: Monster, toks: seq<Tok>, p: nat, v: int)
    requires p < |toks| && toks[p] == Num(v) && |h.path| == MAX_PATH
    ensures HeroField(h, Word("HP"), toks, p) == (h.(hp := v), p + 1)
    ensures HeroField(h, Word("ATTACK_DAMAGE"), toks, p) == (h.(attack := v), p + 1)
    ensures HeroField(h, Word("ATTACK_RANGE"), toks, p) == (h.(range := v), p + 1)
    ensures MonsterField(m, Word("HP"), toks, p) == (m.(hp := v), p + 1)
    ensures MonsterField(m, Word("VISION_RANGE"), toks, p) == (m.(vision := v), p + 1)
    ensures MonsterField(m, Word("ATTACK_DAMAGE"), toks, p) == (m.(attack := v), p + 1)
    ensures MonsterField(m, Word("ATTACK_RANGE"), toks, p) == (m.(range := v), p + 1)
    ensures p + 1 < |toks| && toks[p + 1].Num? ==>
              HeroField(h, Word("START"), toks, p) == (h.(start := Point(v, toks[p + 1].n)), p + 2)
    ensures p + 1 < |toks| && toks[p + 1].Num? ==>
              MonsterField(m, Word("COORDS"), toks, p) == (m.(pos := Point(v, toks[p + 1].n)), p + 2)
  {
  }

  /** A whole record sets its field: after `HERO <id> HP <v>` (and likewise
      for a monster) the slot holds v, whatever the configuration held. */
  lemma RecordSetsField(c: Cfg, toks: seq<Tok>, pos: nat, id: int, v: int)
    requires Shaped(c) && pos + 3 < |toks|
    requires toks[pos + 1] == Num(id) && toks[pos + 2] == Word("HP") && toks[pos + 3] == Num(v)
    ensures 1 <= id <= MAX_HEROES ==> HeroRecord(c, toks, pos).0.heroes[id - 1].hp == v
    ensures 1 <= id <= MAX_MONSTERS ==> MonsterRecord(c, toks, pos).0.monsters[id - 1].hp == v
  {
  }

  // ---------- leerConfig ----------

  /** Storing point `pt` after the `|acc|` points already stored. */
  lemma PathSnoc(acc: seq<Point>, path: seq<Point>, pt: Point)
    requires |acc| < |path|
    ensures (acc + path[|acc|..])[|acc| := pt] == (acc + [pt]) + path[|acc| + 1..]
  {
    var l, r := (acc + path[|acc|..])[|acc| := pt], (acc + [pt]) + path[|acc| + 1..];
    assert |l| == |r|;
    forall i | 0 <= i < |l|
      ensures l[i] == r[i]
    {
    }
  }

  /** The `PATH` loop: the route of hero slot `slot` restarts empty and
      takes the points from `p` one by one, counting them in `pathLen`. */
  method LeerCamino(cfg: GameConfig, slot: int, toks: seq<Tok>, p: nat) returns (q: nat)
    requires cfg.Valid() && 0 <= slot < MAX_HEROES && p <= |toks|
    modifies cfg.heroes
    ensures var pts := PathFrom(toks, p, []);
            q == p + |pts| && cfg.heroes[..] == old(cfg.heroes[..])[slot := WithPath(old(cfg.heroes[slot]), pts)]
  {
    ghost var h := cfg.heroes[slot];
    ghost var hs := cfg.heroes[..];
    ghost var acc: seq<Point> := [];
    cfg.heroes[slot] := cfg.heroes[slot].(pathLen := 0);
    assert acc + h.path[|acc|..] == h.path;
    q := p;
    while q < |toks| && toks[q].Pt?
      invariant p <= q <= |toks| && |acc| == q - p < MAX_PATH
      invariant PathFrom(toks, q, acc) == PathFrom(toks, p, [])
      invariant cfg.heroes[..] == hs[slot := h.(path := acc + h.path[|acc|..], pathLen := |acc|)]
    {
      var cur := cfg.heroes[slot];
      PathSnoc(acc, h.path, toks[q].p);
      cfg.heroes[slot] := cur.(path := cur.path[cur.pathLen := toks[q].p], pathLen := cur.pathLen + 1);
      acc := acc + [toks[q].p];
      q := q + 1;
      if cfg.heroes[slot].pathLen >= MAX_PATH {
        break;
      }
    }
  }

  /** A `HERO` record whose keyword is at `pos`; `q` is where reading goes
      on.  A numeric or `START` field is one `fscanf`, `HeroField`; a
      `PATH` field is the point loop. */
  method LeerHeroe(cfg: GameConfig, toks: seq<Tok>, pos: nat) returns (q: nat)
    requires cfg.Valid() && pos < |toks|
    modifies cfg.heroes
    ensures (cfg.State(), q) == HeroRecord(old(cfg.State()), toks, pos)
  {
    if !(pos + 1 < |toks| && toks[pos + 1].Num?) {
      return pos + 1;
    }
    var id := toks[pos + 1].n;
    var campo := Campo(toks, pos + 2);
    q := if pos + 2 < |toks| then pos + 3 else pos + 2;
    if id <= 0 || id > MAX_HEROES {
      return;
    }
    var h := cfg.heroes[id - 1].(id := id, pathStep := 0, enCombate := false, pathFinished := false);
    ghost var hs := cfg.heroes[..];
    cfg.heroes[id - 1] := h;
    ghost var r := HeroField(h, campo, toks, q);
    if campo == Word("PATH") {
      q := LeerCamino(cfg, id - 1, toks, q);
    } else {
      var (h', q') := HeroField(h, campo, toks, q);
      cfg.heroes[id - 1] := h';
      q := q';
    }
    assert cfg.heroes[..] == hs[id - 1 := r.0] && q == r.1;
  }

  /** A `MONSTER` record whose keyword is at `pos`; `q` is where reading
      goes on. */
  method LeerMonstruo(cfg: GameConfig, toks: seq<Tok>, pos: nat) returns (q: nat)
    requires cfg.Valid() && pos < |toks|
    modifies cfg.monsters
    ensures (cfg.State(), q) == MonsterRecord(old(cfg.State()), toks, pos)
  {
    if !(pos + 1 < |toks| && toks[pos + 1].Num?) {
      return pos + 1;
    }
    var id := toks[pos + 1].n;
    var campo := Campo(toks, pos + 2);
    q := if pos + 2 < |toks| then pos + 3 else pos + 2;
    if id <= 0 || id > MAX_MONSTERS {
      return;
    }
    var m := cfg.monsters[id - 1].(id := id, targetHeroId := -1, alertado := false);
    var (m', q') := MonsterField(m, campo, toks, q);
    cfg.monsters[id - 1] := m';
    q := q';
  }

  /** `leerConfig`: `file` is `None` when the file cannot be opened, which
      returns 1 and touches nothing; otherwise the grid size and counts are
      cleared, every record is read in turn and 0 is returned. */
  method LeerConfig(cfg: GameConfig, file: Option<seq<Tok>>) returns (code: int)
    requires cfg.Valid()
    modifies cfg, cfg.heroes, cfg.monsters
    ensures cfg.Valid()
    ensures code == (if file.None? then 1 else 0)
    ensures cfg.State() == ReadConfig(old(cfg.State()), file)
  {
    if file.None? {
      return 1;
    }
    var toks := file.value;
    cfg.width := 0;
    cfg.height := 0;
    cfg.monsterCount := 0;
    cfg.heroCount := 0;
    ghost var c0 := cfg.State();
    var pos := 0;
    while pos < |toks|
      invariant 0 <= pos <= |toks| && cfg.Valid()
      invariant ReadFrom(cfg.State(), toks, pos) == ReadFrom(c0, toks, 0)
    {
      ghost var c, p0 := cfg.State(), pos;
      match toks[pos]
      case Word("GRID_SIZE") =>
        var (w, h, q) := ReadPair(toks, pos + 1, cfg.width, cfg.height);
        cfg.width, cfg.height, pos := w, h, q;
      case Word("HERO_COUNT") =>
        var (n, q) := ReadInt(toks, pos + 1, cfg.heroCount);
        cfg.heroCount, pos := n, q;
      case Word("MONSTER_COUNT") =>
        var (n, q) := ReadInt(toks, pos + 1, cfg.monsterCount);
        cfg.monsterCount, pos := n, q;
      case Word("HERO") =>
        pos := LeerHeroe(cfg, toks, pos);
      case Word("MONSTER") =>
        pos := LeerMonstruo(cfg, toks, pos);
      case _ =>
        pos := pos + 1;
      assert (cfg.State(), pos) == Step(c, toks, p0);
    }
    return 0;
  }
}
