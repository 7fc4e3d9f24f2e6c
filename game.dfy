/** The heroes-vs-monsters game (T2): every hero and every monster is a
    thread that repeats a tick under the configuration's mutex.  Each tick
    is modelled as one atomic step on the shared `GameConfig`: a hero fights
    the first monster in its range or walks its path; a monster spots the
    nearest hero, calls the other monsters, then retargets, attacks or
    steps towards its target.  Each method is proved against a function on
    the configuration's contents, whose contract states what the tick
    promises. */
module Game {
  import opened Config

  /** The `1e9` both hero scans of a monster start from. */
  const FAR: int := 1000000000

  function Abs(v: int): nat { if v < 0 then -v else v }

  /** `distanciaManhattan`. */
  function Manhattan(a: Point, b: Point): (d: int)
    ensures d >= 0
    ensures d == 0 <==> a == b
  {
    Abs(a.x - b.x) + Abs(a.y - b.y)
  }

  lemma ManhattanSymmetric(a: Point, b: Point)
    ensures Manhattan(a, b) == Manhattan(b, a)
  {
  }

  lemma ManhattanTriangle(a: Point, b: Point, c: Point)
    ensures Manhattan(a, c) <= Manhattan(a, b) + Manhattan(b, c)
  {
  }

  /** Both counts fit their tables. */
  predicate Bounded(c: Cfg) {
    Shaped(c) && 0 <= c.heroCount <= MAX_HEROES && 0 <= c.monsterCount <= MAX_MONSTERS
  }

  /** A hero still in the game: alive and not escaped. */
  predicate Active(h: Hero) { h.hp > 0 && !h.escapado }

  /** `heroesActivosCount` over `hs`. */
  function ActiveCount(hs: seq<Hero>): (r: nat)
    ensures r <= |hs|
    ensures r == 0 <==> forall i :: 0 <= i < |hs| ==> !Active(hs[i])
  {
    if hs == [] then 0
    else
      var r := ActiveCount(hs[..|hs| - 1]);
      assert forall i :: 0 <= i < |hs| - 1 ==> hs[..|hs| - 1][i] == hs[i];
      r + if Active(hs[|hs| - 1]) then 1 else 0
  }

  /** `actualizarEstadoJuego`: the game stops exactly when no hero is alive
      and not escaped; nothing else changes. */
  function EndCheck(c: Cfg): (r: Cfg)
    requires Bounded(c)
    ensures r == c.(juegoActivo := r.juegoActivo)
    ensures r.juegoActivo <==> c.juegoActivo && exists i :: 0 <= i < c.heroCount && Active(c.heroes[i])
  {
    if ActiveCount(c.heroes[..c.heroCount]) == 0 then c.(juegoActivo := false) else c
  }

  /** The all-dead and all-escaped checks after the count add nothing:
      either one means no hero is active. */
  lemma AllDownNoneActive(hs: seq<Hero>)
    ensures (forall i :: 0 <= i < |hs| ==> hs[i].hp <= 0) ==> ActiveCount(hs) == 0
    ensures (forall i :: 0 <= i < |hs| ==> hs[i].escapado) ==> ActiveCount(hs) == 0
  {
  }

  // ---------- monsters calling monsters ----------

  /** Whether `alertarMonstruos`, called by monster `idx`, wakes monster `i`. */
  predicate Wakes(ms: seq<Monster>, count: int, idx: int, i: int, escaped: bool)
    requires 0 <= idx < |ms| && 0 <= i < |ms|
  {
    && i < count && i != idx && ms[i].hp > 0 && !ms[i].alertado && !escaped
    && Manhattan(ms[idx].pos, ms[i].pos) <= ms[idx].vision
  }

  /** The monsters after monster `idx` calls the others to hero `seen`
      (`escaped` is whether that hero has escaped). */
  function Alert(ms: seq<Monster>, count: int, idx: int, seen: int, escaped: bool): (r: seq<Monster>)
    requires 0 <= idx < |ms|
    ensures |r| == |ms| && r[idx] == ms[idx]
    ensures escaped ==> r == ms
    ensures forall i :: 0 <= i < |ms| && Wakes(ms, count, idx, i, escaped) ==>
              r[i].alertado && r[i].targetHeroId == seen
    ensures forall i :: 0 <= i < |ms| ==>
              r[i] == ms[i] || (Wakes(ms, count, idx, i, escaped) && r[i] == ms[i].(alertado := true, targetHeroId := seen))
  {
    seq(|ms|, i requires 0 <= i < |ms| =>
      if Wakes(ms, count, idx, i, escaped) then ms[i].(alertado := true, targetHeroId := seen) else ms[i])
  }

  /** Calling twice is calling once: the woken are no longer asleep. */
  lemma AlertIdempotent(ms: seq<Monster>, count: int, idx: int, seen: int, escaped: bool)
    requires 0 <= idx < |ms|
    ensures Alert(Alert(ms, count, idx, seen, escaped), count, idx, seen, escaped) == Alert(ms, count, idx, seen, escaped)
  {
    var a := Alert(ms, count, idx, seen, escaped);
    var b := Alert(a, count, idx, seen, escaped);
    forall i | 0 <= i < |ms|
      ensures b[i] == a[i]
    {
      if Wakes(ms, count, idx, i, escaped) {
        assert a[i].alertado;
      } else {
        assert a[i] == ms[i];
      }
    }
  }

  // ---------- scanning the heroes ----------

  /** A hero monster `p` may pick: active, within `limit` and closer than
      the `FAR` the scan starts from. */
  predicate Candidate(h: Hero, p: Point, limit: int) {
    Active(h) && Manhattan(h.posActual, p) <= limit && Manhattan(h.posActual, p) < FAR
  }

  /** The scan of the first `n` heroes from point `p`: the index and the
      distance of the nearest candidate, the first one on a tie, or -1 and
      `FAR` when there is none. */
  function NearestUpTo(hs: seq<Hero>, p: Point, limit: int, n: nat): (r: (int, int))
    requires n <= |hs|
    ensures -1 <= r.0 < n
    ensures r.0 == -1 <==> forall j :: 0 <= j < n ==> !Candidate(hs[j], p, limit)
    ensures r.0 == -1 ==> r.1 == FAR
    ensures r.0 != -1 ==> Candidate(hs[r.0], p, limit) && r.1 == Manhattan(hs[r.0].posActual, p)
    ensures r.0 != -1 ==> forall j :: 0 <= j < n && Candidate(hs[j], p, limit) ==> r.1 <= Manhattan(hs[j].posActual, p)
    ensures r.0 != -1 ==> forall j :: 0 <= j < r.0 && Candidate(hs[j], p, limit) ==> r.1 < Manhattan(hs[j].posActual, p)
  {
    if n == 0 then (-1, FAR)
    else
      var best := NearestUpTo(hs, p, limit, n - 1);
      var d := Manhattan(hs[n - 1].posActual, p);
      if Active(hs[n - 1]) && d <= limit && d < best.1 then (n - 1, d) else best
  }

  /** A monster a hero at `p` with reach `range` can hit. */
  predicate InReach(m: Monster, p: Point, range: int) {
    m.hp > 0 && Manhattan(p, m.pos) <= range
  }

  /** The hero's combat scan from monster `i` on: the first monster in
      reach, or -1. */
  function FirstInReach(ms: seq<Monster>, n: int, p: Point, range: int, i: int): (r: int)
    requires 0 <= i <= n <= |ms|
    ensures r == -1 || i <= r < n
    ensures r == -1 <==> forall j :: i <= j < n ==> !InReach(ms[j], p, range)
    ensures r != -1 ==> InReach(ms[r], p, range) && forall j :: i <= j < r ==> !InReach(ms[j], p, range)
    decreases n - i
  {
    if i == n then -1
    else if InReach(ms[i], p, range) then i
    else FirstInReach(ms, n, p, range, i + 1)
  }

  /** One step of a monster at `p` towards `t`: along x while the columns
      differ, then along y. */
  function StepToward(p: Point, t: Point): (r: Point)
    ensures p != t ==> Manhattan(t, r) == Manhattan(t, p) - 1
    ensures p == t ==> r == p
    ensures Manhattan(p, r) <= 1
    ensures p.x != t.x ==> r.y == p.y
  {
    if t.x > p.x then p.(x := p.x + 1)
    else if t.x < p.x then p.(x := p.x - 1)
    else if t.y > p.y then p.(y := p.y + 1)
    else if t.y < p.y then p.(y := p.y - 1)
    else p
  }

  // ---------- one tick of a monster ----------

  /** A monster's target is no hero or one of the counted heroes. */
  predicate TargetOk(m: Monster, heroCount: int) {
    m.targetHeroId == -1 || 0 <= m.targetHeroId < heroCount
  }

  predicate TargetsOk(c: Cfg)
    requires Bounded(c)
  {
    forall i :: 0 <= i < c.monsterCount ==> TargetOk(c.monsters[i], c.heroCount)
  }

  /** The vision part of monster `k`'s tick: a monster not yet alerted
      looks for the nearest active hero within its vision; finding one, it
      targets that hero and calls the other monsters. */
  function See(c: Cfg, k: int): (r: Cfg)
    requires Bounded(c) && 0 <= k < c.monsterCount && TargetsOk(c)
    ensures Bounded(r) && TargetsOk(r)
    ensures r.heroes == c.heroes && r.heroCount == c.heroCount && r.monsterCount == c.monsterCount
    ensures r.juegoActivo == c.juegoActivo && r.width == c.width && r.height == c.height
    ensures var m := c.monsters[k];
            var s := NearestUpTo(c.heroes, m.pos, m.vision, c.heroCount).0;
            && (m.alertado || s == -1 ==> r == c)
            && (!m.alertado && s != -1 ==>
                  && r.monsters[k] == m.(alertado := true, targetHeroId := s)
                  && forall i :: 0 <= i < |c.monsters| && i != k ==>
                       r.monsters[i] == Alert(c.monsters, c.monsterCount, k, s, false)[i])
  {
    var m := c.monsters[k];
    if m.alertado then c
    else
      var s := NearestUpTo(c.heroes, m.pos, m.vision, c.heroCount).0;
      if s == -1 then c
      else
        var ms := c.monsters[k := m.(alertado := true, targetHeroId := s)];
        var r := c.(monsters := Alert(ms, c.monsterCount, k, s, c.heroes[s].escapado));
        assert forall i :: 0 <= i < |c.monsters| && i != k ==>
                 Wakes(ms, c.monsterCount, k, i, false) == Wakes(c.monsters, c.monsterCount, k, i, false);
        r
  }

  /** Whether monster `m` has lost its target: none, dead or escaped. */
  predicate Lost(c: Cfg, m: Monster)
    requires Bounded(c) && TargetOk(m, c.heroCount)
  {
    m.targetHeroId == -1 || c.heroes[m.targetHeroId].hp <= 0 || c.heroes[m.targetHeroId].escapado
  }

  /** Retargeting monster `k`: the nearest active hero at any distance, the
      first one on a tie; with none, the monster calms down and has no
      target.  Nothing else changes. */
  function Retarget(c: Cfg, k: int): (r: Cfg)
    requires Bounded(c) && 0 <= k < c.monsterCount && TargetsOk(c)
    ensures Bounded(r) && TargetsOk(r)
    ensures var n := NearestUpTo(c.heroes, c.monsters[k].pos, FAR, c.heroCount).0;
            && r.monsters[k].targetHeroId == n && (r.monsters[k].alertado <==> n != -1)
            && r == c.(monsters := c.monsters[k := c.monsters[k].(alertado := r.monsters[k].alertado, targetHeroId := n)])
  {
    var m := c.monsters[k];
    var n := NearestUpTo(c.heroes, m.pos, FAR, c.heroCount).0;
    if n == -1 then c.(monsters := c.monsters[k := m.(alertado := false, targetHeroId := -1)])
    else c.(monsters := c.monsters[k := m.(alertado := true, targetHeroId := n)])
  }

  /** Monster `k` after its live target: a target within range loses the
      monster's attack in hp, and the game stops when that leaves no hero
      active; one out of range sees the monster step one cell closer. */
  function Chase(c: Cfg, k: int): (r: Cfg)
    requires Bounded(c) && 0 <= k < c.monsterCount && TargetsOk(c)
    requires c.monsters[k].targetHeroId != -1
    ensures Bounded(r) && TargetsOk(r)
    ensures var m := c.monsters[k];
            var t := m.targetHeroId;
            var d := Manhattan(c.heroes[t].posActual, m.pos);
            && (d <= m.range ==>
                  && r.monsters == c.monsters
                  && r.heroes == c.heroes[t := c.heroes[t].(hp := c.heroes[t].hp - m.attack)]
                  && r.heroCount == c.heroCount && r.monsterCount == c.monsterCount
                  && r.width == c.width && r.height == c.height
                  && (r.juegoActivo <==> c.juegoActivo && (r.heroes[t].hp > 0 || exists i :: 0 <= i < c.heroCount && Active(r.heroes[i]))))
            && (d > m.range ==>
                  && r == c.(monsters := c.monsters[k := m.(pos := r.monsters[k].pos)])
                  && r.monsters[k].pos == StepToward(m.pos, c.heroes[t].posActual)
                  && (m.pos != c.heroes[t].posActual ==> Manhattan(c.heroes[t].posActual, r.monsters[k].pos) == d - 1))
  {
    var m := c.monsters[k];
    var t := c.heroes[m.targetHeroId];
    if Manhattan(t.posActual, m.pos) <= m.range then
      var c1 := c.(heroes := c.heroes[m.targetHeroId := t.(hp := t.hp - m.attack)]);
      if t.hp - m.attack <= 0 then EndCheck(c1) else c1
    else
      c.(monsters := c.monsters[k := m.(pos := StepToward(m.pos, t.posActual))])
  }

  /** The action part of monster `k`'s tick, for an alerted monster: it
      retargets when it has lost its target, and chases it otherwise. */
  function Act(c: Cfg, k: int): (r: Cfg)
    requires Bounded(c) && 0 <= k < c.monsterCount && TargetsOk(c)
    ensures Bounded(r) && TargetsOk(r)
    ensures r.heroCount == c.heroCount && r.monsterCount == c.monsterCount
    ensures r.width == c.width && r.height == c.height
    ensures !c.monsters[k].alertado ==> r == c
    ensures c.monsters[k].alertado && Lost(c, c.monsters[k]) ==> r == Retarget(c, k)
    ensures c.monsters[k].alertado && !Lost(c, c.monsters[k]) ==> r == Chase(c, k)
  {
    var m := c.monsters[k];
    if !m.alertado then c
    else if Lost(c, m) then Retarget(c, k)
    else Chase(c, k)
  }

  /** One pass of `hiloMonstruo`'s loop for monster `k`, after its sleep:
      `false` when the thread leaves the loop (game over or monster dead;
      no active hero left, which also stops the game). */
  function MonsterTick(c: Cfg, k: int): (r: (Cfg, bool))
    requires Bounded(c) && 0 <= k < c.monsterCount && TargetsOk(c)
    ensures Bounded(r.0) && TargetsOk(r.0)
    ensures r.0.heroCount == c.heroCount && r.0.monsterCount == c.monsterCount
    ensures !r.1 <==> !c.juegoActivo || c.monsters[k].hp <= 0 || ActiveCount(c.heroes[..c.heroCount]) == 0
    ensures !r.1 ==> r.0 == c.(juegoActivo := r.0.juegoActivo)
    ensures !r.1 ==> (r.0.juegoActivo <==> c.juegoActivo && c.monsters[k].hp <= 0)
    ensures r.1 ==> r.0 == Act(See(c, k), k)
  {
    if !c.juegoActivo || c.monsters[k].hp <= 0 then (c, false)
    else if ActiveCount(c.heroes[..c.heroCount]) == 0 then (c.(juegoActivo := false), false)
    else (Act(See(c, k), k), true)
  }

  // ---------- one tick of a hero ----------

  /** A hero whose next step indexes its path array. */
  predicate HeroOk(h: Hero) {
    0 <= h.pathStep && h.pathLen <= |h.path|
  }

  /** The setup at the start of `hiloHeroe`: the hero stands at its start,
      at the first step of its path, not fighting and not escaped. */
  function Started(h: Hero): (r: Hero)
    ensures r.posActual == h.start && r.pathStep == 0
    ensures !r.pathFinished && !r.enCombate && !r.escapado
    ensures Active(r) <==> h.hp > 0
    ensures r == h.(posActual := r.posActual, pathStep := 0, pathFinished := false, enCombate := false, escapado := false)
  {
    h.(posActual := h.start, pathStep := 0, pathFinished := false, enCombate := false, escapado := false)
  }

  /** One pass of `hiloHeroe`'s loop for hero `k`: `false` when the thread
      leaves the loop.  The hero hits the first monster in reach, in table
      order; with none in reach it takes the next point of its path, or
      escapes at the end of it, which may end the game. */
  function HeroTick(c: Cfg, k: int): (r: (Cfg, bool))
    requires Bounded(c) && 0 <= k < c.heroCount && HeroOk(c.heroes[k])
    ensures Bounded(r.0) && HeroOk(r.0.heroes[k])
    ensures r.0.heroCount == c.heroCount && r.0.monsterCount == c.monsterCount
    ensures r.0.width == c.width && r.0.height == c.height
    ensures TargetsOk(c) ==> TargetsOk(r.0)
    ensures forall i :: 0 <= i < |c.heroes| && i != k ==> r.0.heroes[i] == c.heroes[i]
    ensures !r.1 <==> !c.juegoActivo || !Active(c.heroes[k])
    ensures !r.1 ==> r.0 == c
    ensures var h := c.heroes[k];
            var a := FirstInReach(c.monsters, c.monsterCount, h.posActual, h.range, 0);
            var h' := r.0.heroes[k];
            && (r.1 && a != -1 ==>
                  && r.0.monsters == c.monsters[a := c.monsters[a].(hp := c.monsters[a].hp - h.attack)]
                  && h' == h.(enCombate := true) && r.0.juegoActivo == c.juegoActivo)
            && (r.1 && a == -1 ==> r.0.monsters == c.monsters && !h'.enCombate)
            && (r.1 && a == -1 && h.pathStep < h.pathLen ==>
                  && h' == h.(enCombate := false, posActual := h.path[h.pathStep], pathStep := h.pathStep + 1)
                  && r.0.juegoActivo == c.juegoActivo)
            && (r.1 && a == -1 && h.pathStep >= h.pathLen ==>
                  && h' == h.(enCombate := false, pathFinished := true, escapado := true)
                  && r.0 == EndCheck(r.0.(juegoActivo := c.juegoActivo)))
  {
    var h := c.heroes[k];
    if !c.juegoActivo || h.hp <= 0 || h.escapado then (c, false)
    else
      var a := FirstInReach(c.monsters, c.monsterCount, h.posActual, h.range, 0);
      if a != -1 then
        var m := c.monsters[a];
        (c.(heroes := c.heroes[k := h.(enCombate := true)], monsters := c.monsters[a := m.(hp := m.hp - h.attack)]), true)
      else if h.pathStep < h.pathLen then
        (c.(heroes := c.heroes[k := h.(enCombate := false, posActual := h.path[h.pathStep], pathStep := h.pathStep + 1)]), true)
      else
        (EndCheck(c.(heroes := c.heroes[k := h.(enCombate := false, pathFinished := true, escapado := true)])), true)
  }

  /** A hero tick never brings a hero back: a hero out of the game stays
      out, and the path step only grows. */
  lemma HeroTickMonotone(c: Cfg, k: int, i: int)
    requires Bounded(c) && 0 <= k < c.heroCount && HeroOk(c.heroes[k]) && 0 <= i < |c.heroes|
    ensures !Active(c.heroes[i]) ==> !Active(HeroTick(c, k).0.heroes[i])
    ensures HeroTick(c, k).0.heroes[i].pathStep >= c.heroes[i].pathStep
    ensures HeroTick(c, k).0.heroes[i].hp == c.heroes[i].hp
  {
  }

  // ---------- the methods ----------

  /** `heroesActivosCount`. */
  method HeroesActivosCount(cfg: GameConfig) returns (c: int)
    requires cfg.Valid() && Bounded(cfg.State())
    ensures c == ActiveCount(cfg.heroes[..cfg.heroCount])
  {
    c := 0;
    for i := 0 to cfg.heroCount
      invariant c == ActiveCount(cfg.heroes[..i])
    {
      assert cfg.heroes[..i + 1][..i] == cfg.heroes[..i];
      if cfg.heroes[i].hp > 0 && !cfg.heroes[i].escapado {
        c := c + 1;
      }
    }
  }

  /** `todosMuertos`. */
  method TodosMuertos(cfg: GameConfig) returns (b: bool)
    requires cfg.Valid() && Bounded(cfg.State())
    ensures b <==> forall i :: 0 <= i < cfg.heroCount ==> cfg.heroes[i].hp <= 0
  {
    for i := 0 to cfg.heroCount
      invariant forall j :: 0 <= j < i ==> cfg.heroes[j].hp <= 0
    {
      if cfg.heroes[i].hp > 0 {
        return false;
      }
    }
    return true;
  }

  /** `todosEscapados`. */
  method TodosEscapados(cfg: GameConfig) returns (b: bool)
    requires cfg.Valid() && Bounded(cfg.State())
    ensures b <==> forall i :: 0 <= i < cfg.heroCount ==> cfg.heroes[i].escapado
  {
    for i := 0 to cfg.heroCount
      invariant forall j :: 0 <= j < i ==> cfg.heroes[j].escapado
    {
      if !cfg.heroes[i].escapado {
        return false;
      }
    }
    return true;
  }

  /** `actualizarEstadoJuego`: no active hero stops the game; so do all
      heroes dead or all escaped, checked only when some hero is active (and
      then never true).  The three cases differ only in the message
      printed, so one flag collects them. */
  method ActualizarEstadoJuego(cfg: GameConfig)
    requires cfg.Valid() && Bounded(cfg.State())
    modifies cfg
    ensures cfg.State() == EndCheck(old(cfg.State()))
  {
    var activos := HeroesActivosCount(cfg);
    var fin := activos == 0;
    if !fin {
      fin := TodosMuertos(cfg);
    }
    if !fin {
      fin := TodosEscapados(cfg);
    }
    if fin {
      cfg.juegoActivo := false;
    }
  }

  /** `alertarMonstruos`: monster `idx` calls every other living monster
      that is not yet alerted and stands within its vision to hero `seen`,
      unless that hero has escaped. */
  method AlertarMonstruos(cfg: GameConfig, idx: int, seen: int)
    requires cfg.Valid() && Bounded(cfg.State())
    requires 0 <= idx < MAX_MONSTERS && 0 <= seen < MAX_HEROES
    modifies cfg.monsters
    ensures cfg.monsters[..] == Alert(old(cfg.monsters[..]), cfg.monsterCount, idx, seen, cfg.heroes[seen].escapado)
  {
    ghost var ms := cfg.monsters[..];
    var m := cfg.monsters[idx];
    for i := 0 to cfg.monsterCount
      invariant cfg.monsters[idx] == m
      invariant forall j :: 0 <= j < i ==> cfg.monsters[j] == Alert(ms, cfg.monsterCount, idx, seen, cfg.heroes[seen].escapado)[j]
      invariant forall j :: i <= j < MAX_MONSTERS ==> cfg.monsters[j] == ms[j]
    {
      if i == idx {
        continue;
      }
      var otro := cfg.monsters[i];
      if otro.hp <= 0 || otro.alertado {
        continue;
      }
      if cfg.heroes[seen].escapado {
        continue;
      }
      var d := Manhattan(m.pos, otro.pos);
      if d <= m.vision {
        cfg.monsters[i] := otro.(alertado := true, targetHeroId := seen);
      }
    }
  }

  /** The nearest-hero scan both parts of a monster tick run, from point
      `p` with bound `limit` (the vision, or `FAR` when retargeting). */
  method HeroeMasCercano(cfg: GameConfig, p: Point, limit: int) returns (idx: int, dist: int)
    requires cfg.Valid() && Bounded(cfg.State())
    ensures (idx, dist) == NearestUpTo(cfg.heroes[..], p, limit, cfg.heroCount)
  {
    idx, dist := -1, FAR;
    for i := 0 to cfg.heroCount
      invariant (idx, dist) == NearestUpTo(cfg.heroes[..], p, limit, i)
    {
      var h := cfg.heroes[i];
      if h.hp <= 0 || h.escapado {
        continue;
      }
      var d := Manhattan(h.posActual, p);
      if d <= limit && d < dist {
        dist, idx := d, i;
      }
    }
  }

  /** The vision part of `hiloMonstruo` for monster `k`. */
  method Vigilar(cfg: GameConfig, k: int)
    requires cfg.Valid() && Bounded(cfg.State()) && 0 <= k < cfg.monsterCount && TargetsOk(cfg.State())
    modifies cfg.monsters
    ensures cfg.State() == See(old(cfg.State()), k)
  {
    var m := cfg.monsters[k];
    if !m.alertado {
      var visto, distMin := HeroeMasCercano(cfg, m.pos, m.vision);
      if visto != -1 {
        cfg.monsters[k] := m.(alertado := true, targetHeroId := visto);
        AlertarMonstruos(cfg, k, visto);
      }
    }
  }

  /** The retargeting scan of `hiloMonstruo` for monster `k`. */
  method Reapuntar(cfg: GameConfig, k: int)
    requires cfg.Valid() && Bounded(cfg.State()) && 0 <= k < cfg.monsterCount && TargetsOk(cfg.State())
    modifies cfg.monsters
    ensures cfg.State() == Retarget(old(cfg.State()), k)
  {
    var m := cfg.monsters[k];
    var nuevo, dmin := HeroeMasCercano(cfg, m.pos, FAR);
    if nuevo == -1 {
      cfg.monsters[k] := m.(alertado := false, targetHeroId := -1);
    } else {
      cfg.monsters[k] := m.(alertado := true, targetHeroId := nuevo);
    }
  }

  /** The attack or the step of monster `k` on its live target. */
  method Perseguir(cfg: GameConfig, k: int)
    requires cfg.Valid() && Bounded(cfg.State()) && 0 <= k < cfg.monsterCount && TargetsOk(cfg.State())
    requires cfg.monsters[k].targetHeroId != -1
    modifies cfg, cfg.heroes, cfg.monsters
    ensures cfg.State() == Chase(old(cfg.State()), k)
  {
    var m := cfg.monsters[k];
    var t := cfg.heroes[m.targetHeroId];
    var d := Manhattan(t.posActual, m.pos);
    if d <= m.range {
      cfg.heroes[m.targetHeroId] := t.(hp := t.hp - m.attack);
      if t.hp - m.attack <= 0 {
        ActualizarEstadoJuego(cfg);
      }
    } else {
      var pos := m.pos;
      if t.posActual.x > pos.x {
        pos := pos.(x := pos.x + 1);
      } else if t.posActual.x < pos.x {
        pos := pos.(x := pos.x - 1);
      } else if t.posActual.y > pos.y {
        pos := pos.(y := pos.y + 1);
      } else if t.posActual.y < pos.y {
        pos := pos.(y := pos.y - 1);
      }
      cfg.monsters[k] := m.(pos := pos);
    }
  }

  /** The action part of `hiloMonstruo` for monster `k`. */
  method Actuar(cfg: GameConfig, k: int)
    requires cfg.Valid() && Bounded(cfg.State()) && 0 <= k < cfg.monsterCount && TargetsOk(cfg.State())
    modifies cfg, cfg.heroes, cfg.monsters
    ensures cfg.State() == Act(old(cfg.State()), k)
  {
    var m := cfg.monsters[k];
    if m.alertado {
      if m.targetHeroId == -1 || cfg.heroes[m.targetHeroId].hp <= 0 || cfg.heroes[m.targetHeroId].escapado {
        Reapuntar(cfg, k);
      } else {
        Perseguir(cfg, k);
      }
    }
  }

  /** One pass of `hiloMonstruo`'s loop for monster `k`; `sigue` is
      whether the thread goes on. */
  method TickMonstruo(cfg: GameConfig, k: int) returns (sigue: bool)
    requires cfg.Valid() && Bounded(cfg.State()) && 0 <= k < cfg.monsterCount && TargetsOk(cfg.State())
    modifies cfg, cfg.heroes, cfg.monsters
    ensures cfg.Valid()
    ensures (cfg.State(), sigue) == MonsterTick(old(cfg.State()), k)
  {
    if !cfg.juegoActivo || cfg.monsters[k].hp <= 0 {
      return false;
    }
    var activos := HeroesActivosCount(cfg);
    if activos == 0 {
      cfg.juegoActivo := false;
      return false;
    }
    Vigilar(cfg, k);
    Actuar(cfg, k);
    return true;
  }

  /** The setup `hiloHeroe` does before its loop. */
  method IniciarHeroe(cfg: GameConfig, k: int)
    requires cfg.Valid() && 0 <= k < MAX_HEROES
    modifies cfg.heroes
    ensures cfg.Valid()
    ensures cfg.State() == old(cfg.State()).(heroes := old(cfg.heroes[..])[k := Started(old(cfg.heroes[k]))])
  {
    var h := cfg.heroes[k];
    cfg.heroes[k] := h.(posActual := h.start, pathStep := 0, pathFinished := false, enCombate := false, escapado := false);
  }

  /** The combat scan of `hiloHeroe`: the first living monster within
      `range` of `p`, or -1. */
  method BuscarAtacante(cfg: GameConfig, p: Point, range: int) returns (a: int)
    requires cfg.Valid() && Bounded(cfg.State())
    ensures a == FirstInReach(cfg.monsters[..], cfg.monsterCount, p, range, 0)
  {
    var i := 0;
    while i < cfg.monsterCount
      invariant 0 <= i <= cfg.monsterCount
      invariant FirstInReach(cfg.monsters[..], cfg.monsterCount, p, range, i)
                == FirstInReach(cfg.monsters[..], cfg.monsterCount, p, range, 0)
    {
      var m := cfg.monsters[i];
      if m.hp > 0 && Manhattan(p, m.pos) <= range {
        return i;
      }
      i := i + 1;
    }
    return -1;
  }

  /** One pass of `hiloHeroe`'s loop for hero `k`; `sigue` is whether the
      thread goes on. */
  method TickHeroe(cfg: GameConfig, k: int) returns (sigue: bool)
    requires cfg.Valid() && Bounded(cfg.State()) && 0 <= k < cfg.heroCount && HeroOk(cfg.heroes[k])
    modifies cfg, cfg.heroes, cfg.monsters
    ensures cfg.Valid()
    ensures (cfg.State(), sigue) == HeroTick(old(cfg.State()), k)
  {
    var h := cfg.heroes[k];
    if !cfg.juegoActivo || h.hp <= 0 || h.escapado {
      return false;
    }
    ghost var c0 := cfg.State();
    cfg.heroes[k] := h.(enCombate := false);
    var atacante := BuscarAtacante(cfg, h.posActual, h.range);
    if atacante != -1 {
      cfg.heroes[k] := cfg.heroes[k].(enCombate := true);
    }
    if cfg.heroes[k].enCombate && atacante != -1 {
      var m := cfg.monsters[atacante];
      cfg.monsters[atacante] := m.(hp := m.hp - h.attack);
      assert cfg.State() == c0.(heroes := c0.heroes[k := h.(enCombate := true)],
                                monsters := c0.monsters[atacante := m.(hp := m.hp - h.attack)]);
    }
    var hero := cfg.heroes[k];
    if !hero.enCombate && hero.hp > 0 {
      if hero.pathStep < hero.pathLen {
        cfg.heroes[k] := hero.(posActual := hero.path[hero.pathStep], pathStep := hero.pathStep + 1);
        assert cfg.State() == c0.(heroes := c0.heroes[k := hero.(posActual := h.path[h.pathStep], pathStep := h.pathStep + 1)]);
      } else {
        cfg.heroes[k] := hero.(pathFinished := true, escapado := true);
        assert cfg.State() == c0.(heroes := c0.heroes[k := hero.(pathFinished := true, escapado := true)]);
        ActualizarEstadoJuego(cfg);
      }
    }
    return true;
  }

  /** After `hiloHeroe`'s loop: a dead hero re-checks whether the game is
      over. */
  method TerminarHeroe(cfg: GameConfig, k: int)
    requires cfg.Valid() && Bounded(cfg.State()) && 0 <= k < cfg.heroCount
    modifies cfg
    ensures cfg.State() == if old(cfg.heroes[k].hp) <= 0 then EndCheck(old(cfg.State())) else old(cfg.State())
  {
    if cfg.heroes[k].hp <= 0 {
      ActualizarEstadoJuego(cfg);
    }
  }
}
