/** The paging simulator (T3): physical memory is a table of RAM frames,
    the swap area a table of SWAP frames, and every page of every process
    sits in exactly one frame of one of them.  Processes are created with
    their pages placed first-fit (RAM before SWAP), finished with their
    frames released, and their pages accessed under an LRU replacement
    policy driven by a logical clock.

    The source's random choices (process size, which process finishes or is
    accessed, which page) are parameters here.  Each page is identified by
    its process and its index in that process, which stands for the pointer
    the source stores in a frame. */
module Paging {
  import opened Decimal

  datatype PageId = PageId(pid: int, index: int)

  /** `Pagina` without its identity: where it is and when it was last used. */
  datatype Page = Page(enRAM: bool, marco: int, ultimoAcceso: int)

  /** `Proceso` without its page list, which is `PageId(id, 0) ..
      PageId(id, numeroPaginas - 1)`. */
  datatype Proceso = Proceso(id: int, tamanio: int, numeroPaginas: int)

  /** A frame table: `None` is a free frame (`nullptr`). */
  type Frames = seq<Option<PageId>>

  /** Both frame tables and the records of the pages they hold. */
  datatype Memory = Memory(ram: Frames, swap: Frames, pages: map<PageId, Page>)

  /** The number of pages of a process of `tamanio` MB: its size in KB
      divided by the page size, rounded up. */
  function PageCount(tamanio: int, tamPagina: int): (n: int)
    requires tamanio >= 0 && tamPagina > 0
    ensures n >= 0
    ensures (n - 1) * tamPagina < tamanio * 1024 <= n * tamPagina
  {
    var kb := tamanio * 1024;
    var q, r := kb / tamPagina, kb % tamPagina;
    assert kb == q * tamPagina + r;
    if r != 0 then q + 1 else q
  }

  // ---------- frame search ----------

  /** The lowest free frame at or after `i`, or -1. */
  function FreeFrom(frames: Frames, i: nat): (r: int)
    requires i <= |frames|
    ensures r == -1 || i <= r < |frames|
    ensures r == -1 <==> forall f :: i <= f < |frames| ==> frames[f].Some?
    ensures r >= 0 ==> frames[r].None? && forall f :: i <= f < r ==> frames[f].Some?
    decreases |frames| - i
  {
    if i == |frames| then -1 else if frames[i].None? then i else FreeFrom(frames, i + 1)
  }

  /** The lowest free frame of a table, or -1 when every frame is taken. */
  function FirstFree(frames: Frames): (r: int)
    ensures -1 <= r < |frames|
    ensures r == -1 <==> forall f :: 0 <= f < |frames| ==> frames[f].Some?
    ensures r >= 0 ==> frames[r].None? && forall f :: 0 <= f < r ==> frames[f].Some?
  {
    FreeFrom(frames, 0)
  }

  /** `buscarMarcoLibre`: scan the table for the first `nullptr`. */
  method BuscarMarcoLibre(memoria: Frames) returns (r: int)
    ensures r == FirstFree(memoria)
  {
    for i := 0 to |memoria|
      invariant forall f :: 0 <= f < i ==> memoria[f].Some?
    {
      if memoria[i].None? {
        return i;
      }
    }
    return -1;
  }

  // ---------- least recently used ----------

  /** The last use of the page in RAM frame `f` (0 for a free frame). */
  function Age(ram: Frames, pages: map<PageId, Page>, f: int): int {
    if 0 <= f < |ram| && ram[f].Some? && ram[f].value in pages then pages[ram[f].value].ultimoAcceso else 0
  }

  /** `v` is the occupied frame whose page was used longest ago, the
      earliest such frame on a tie, among the first `n` frames. */
  ghost predicate OldestUpTo(ram: Frames, pages: map<PageId, Page>, n: int, v: int) {
    && 0 <= v < n <= |ram| && ram[v].Some?
    && forall f :: 0 <= f < n && ram[f].Some? ==>
         Age(ram, pages, v) <= Age(ram, pages, f) && (f < v ==> Age(ram, pages, v) < Age(ram, pages, f))
  }

  /** The victim among the first `n` RAM frames, as `aplicarLRU`'s scan
      finds it: a frame replaces the candidate only when strictly older. */
  function LruUpTo(ram: Frames, pages: map<PageId, Page>, n: nat): (v: int)
    requires n <= |ram|
    ensures v == -1 <==> forall f :: 0 <= f < n ==> ram[f].None?
    ensures v != -1 ==> OldestUpTo(ram, pages, n, v)
  {
    if n == 0 then -1
    else
      var b := LruUpTo(ram, pages, n - 1);
      if ram[n - 1].Some? && (b == -1 || Age(ram, pages, n - 1) < Age(ram, pages, b)) then n - 1 else b
  }

  /** `aplicarLRU`'s victim: -1 only when RAM holds no page at all. */
  function Lru(ram: Frames, pages: map<PageId, Page>): (v: int)
    ensures v == -1 <==> forall f :: 0 <= f < |ram| ==> ram[f].None?
    ensures v != -1 ==> 0 <= v < |ram| && ram[v].Some?
    ensures v != -1 ==> OldestUpTo(ram, pages, |ram|, v)
  {
    LruUpTo(ram, pages, |ram|)
  }

  /** There is only one oldest frame. */
  lemma OldestUnique(ram: Frames, pages: map<PageId, Page>, v: int, w: int)
    requires OldestUpTo(ram, pages, |ram|, v) && OldestUpTo(ram, pages, |ram|, w)
    ensures v == w
  {
  }

  // ---------- consistency ----------

  /** The page `id` is recorded as being in frame `f` of RAM (`inRam`) or SWAP. */
  predicate Holds(m: Memory, id: PageId, inRam: bool, f: int) {
    id in m.pages && m.pages[id].enRAM == inRam && m.pages[id].marco == f
  }

  /** The frame the record of `id` names holds `id`. */
  predicate Placed(m: Memory, id: PageId)
    requires id in m.pages
  {
    var p := m.pages[id];
    if p.enRAM then 0 <= p.marco < |m.ram| && m.ram[p.marco] == Some(id)
    else 0 <= p.marco < |m.swap| && m.swap[p.marco] == Some(id)
  }

  /** Records and frame tables agree: a page with `enRAM` sits at
      `RAM[marco]`, any other page at `SWAP[marco]`, and every occupied
      frame holds a page whose record names that frame. */
  predicate Consistent(m: Memory) {
    && (forall id :: id in m.pages ==> Placed(m, id))
    && (forall f :: 0 <= f < |m.ram| && m.ram[f].Some? ==> Holds(m, m.ram[f].value, true, f))
    && (forall f :: 0 <= f < |m.swap| && m.swap[f].Some? ==> Holds(m, m.swap[f].value, false, f))
  }

  /** No page of `pid` is recorded. */
  predicate Fresh(m: Memory, pid: int) {
    forall id :: id in m.pages ==> id.pid != pid
  }

  // ---------- placement ----------

  /** One page of a new process: the lowest free RAM frame, else the lowest
      free SWAP frame, else no room (`None`). */
  function PlacePage(m: Memory, id: PageId): Option<Memory> {
    var f := FirstFree(m.ram);
    if f >= 0 then Some(Memory(m.ram[f := Some(id)], m.swap, m.pages[id := Page(true, f, 0)]))
    else
      var g := FirstFree(m.swap);
      if g >= 0 then Some(Memory(m.ram, m.swap[g := Some(id)], m.pages[id := Page(false, g, 0)]))
      else None
  }

  /** The first `n` pages of process `pid`, placed one after another. */
  function PlaceAll(m: Memory, pid: int, n: nat): Option<Memory> {
    if n == 0 then Some(m)
    else
      match PlaceAll(m, pid, n - 1)
      case None => None
      case Some(m1) => PlacePage(m1, PageId(pid, n - 1))
  }

  /** Frame `f` holds one of the first `n` pages of `pid`. */
  predicate IsPageOf(slot: Option<PageId>, pid: int, n: int) {
    slot.Some? && slot.value.pid == pid && 0 <= slot.value.index < n
  }

  /** The frames and records of the first `n` pages of `pid` released. */
  function Release(m: Memory, pid: int, n: int): Memory {
    Memory(seq(|m.ram|, f requires 0 <= f < |m.ram| => if IsPageOf(m.ram[f], pid, n) then None else m.ram[f]),
           seq(|m.swap|, f requires 0 <= f < |m.swap| => if IsPageOf(m.swap[f], pid, n) then None else m.swap[f]),
           map id | id in m.pages && !IsPageOf(Some(id), pid, n) :: m.pages[id])
  }

  // ---------- access ----------

  /** A hit: only the page's last use changes. */
  function Touch(m: Memory, id: PageId, clock: int): Memory
    requires id in m.pages
  {
    Memory(m.ram, m.swap, m.pages[id := m.pages[id].(ultimoAcceso := clock)])
  }

  /** A page fault on `id`, which sits in SWAP frame `s`: its SWAP frame is
      freed first; it goes to the lowest free RAM frame, or else to the LRU
      victim's frame, the victim moving to the lowest free SWAP frame.
      `None` when RAM has no frame at all. */
  function FaultIn(m: Memory, id: PageId, clock: int): Option<Memory>
    requires Consistent(m)
    requires id in m.pages && !m.pages[id].enRAM
  {
    var s := m.pages[id].marco;
    var f := FirstFree(m.ram);
    if f >= 0 then
      Some(Memory(m.ram[f := Some(id)], m.swap[s := None], m.pages[id := Page(true, f, clock)]))
    else
      var v := Lru(m.ram, m.pages);
      if v < 0 then None
      else
        var victim := m.ram[v].value;
        var swap1 := m.swap[s := None];
        var g := FirstFree(swap1);
        assert swap1[s].None?;
        Some(Memory(m.ram[v := Some(id)], swap1[g := Some(victim)],
                    m.pages[victim := m.pages[victim].(enRAM := false, marco := g)][id := Page(true, v, clock)]))
  }

  /** Page `id` leaves its frame and its record is dropped. */
  function Unplace(m: Memory, id: PageId): Memory
    requires id in m.pages && Placed(m, id)
  {
    var p := m.pages[id];
    if p.enRAM then Memory(m.ram[p.marco := None], m.swap, m.pages - {id})
    else Memory(m.ram, m.swap[p.marco := None], m.pages - {id})
  }

  // ---------- placement: properties ----------

  /** Placing one page: `None` exactly when both tables are full; otherwise
      the page goes to RAM exactly when RAM has a free frame, into the lowest
      free frame of its table, and nothing else moves. */
  lemma PlacePageWhere(m: Memory, id: PageId)
    ensures PlacePage(m, id).None? <==>
              (forall f :: 0 <= f < |m.ram| ==> m.ram[f].Some?) && (forall f :: 0 <= f < |m.swap| ==> m.swap[f].Some?)
    ensures PlacePage(m, id).Some? ==>
              var m' := PlacePage(m, id).value;
              var k := m'.pages[id].marco;
              && id in m'.pages
              && (m'.pages[id].enRAM <==> exists f :: 0 <= f < |m.ram| && m.ram[f].None?)
              && (m'.pages[id].enRAM ==> 0 <= k < |m.ram| && m.ram[k].None? && forall f :: 0 <= f < k ==> m.ram[f].Some?)
              && (!m'.pages[id].enRAM ==> 0 <= k < |m.swap| && m.swap[k].None? && forall f :: 0 <= f < k ==> m.swap[f].Some?)
  {
  }

  /** Placing a page only adds its record, never used, and fills exactly
      one free frame with it, the one its record names; the tables keep
      their sizes. */
  lemma PlacePageKeeps(m: Memory, id: PageId)
    requires PlacePage(m, id).Some?
    ensures var m' := PlacePage(m, id).value;
            && (forall x :: x in m'.pages <==> x in m.pages || x == id)
            && (forall x :: x in m.pages && x != id ==> m'.pages[x] == m.pages[x])
            && m'.pages[id].ultimoAcceso == 0
            && |m'.ram| == |m.ram| && |m'.swap| == |m.swap|
            && (forall f :: 0 <= f < |m.ram| ==> m'.ram[f] == m.ram[f] || (m.ram[f].None? && m'.ram[f] == Some(id)))
            && (forall f :: 0 <= f < |m.swap| ==> m'.swap[f] == m.swap[f] || (m.swap[f].None? && m'.swap[f] == Some(id)))
            && (m'.pages[id].enRAM ==> 0 <= m'.pages[id].marco < |m.ram| && m'.ram[m'.pages[id].marco] == Some(id))
            && (!m'.pages[id].enRAM ==> 0 <= m'.pages[id].marco < |m.swap| && m'.swap[m'.pages[id].marco] == Some(id))
            && (forall f :: 0 <= f < |m.ram| && m'.ram[f] != m.ram[f] ==> m'.pages[id].enRAM && f == m'.pages[id].marco)
            && (forall f :: 0 <= f < |m.swap| && m'.swap[f] != m.swap[f] ==> !m'.pages[id].enRAM && f == m'.pages[id].marco)
  {
  }

  /** Placing a page that has no record keeps the memory consistent. */
  lemma PlacePageConsistent(m: Memory, id: PageId)
    requires Consistent(m) && id !in m.pages && PlacePage(m, id).Some?
    ensures Consistent(PlacePage(m, id).value)
  {
  }

  /** Placing the pages of a process adds records for exactly its first
      `n` pages, all never used, keeps every other record and only fills
      free frames with them. */
  lemma {:induction false} PlaceAllKeeps(m: Memory, pid: int, n: nat)
    requires Fresh(m, pid) && PlaceAll(m, pid, n).Some?
    ensures var m' := PlaceAll(m, pid, n).value;
            && (forall x :: x in m'.pages <==> x in m.pages || (x.pid == pid && 0 <= x.index < n))
            && (forall x :: x in m.pages ==> m'.pages[x] == m.pages[x])
            && (forall x :: x in m'.pages && x !in m.pages ==> m'.pages[x].ultimoAcceso == 0)
            && |m'.ram| == |m.ram| && |m'.swap| == |m.swap|
            && (forall f :: 0 <= f < |m.ram| ==> m'.ram[f] == m.ram[f] || (m.ram[f].None? && IsPageOf(m'.ram[f], pid, n)))
            && (forall f :: 0 <= f < |m.swap| ==> m'.swap[f] == m.swap[f] || (m.swap[f].None? && IsPageOf(m'.swap[f], pid, n)))
  {
    if n > 0 {
      PlaceAllKeeps(m, pid, n - 1);
      PlacePageKeeps(PlaceAll(m, pid, n - 1).value, PageId(pid, n - 1));
    }
  }

  /** Placing the pages of a process that has none keeps the memory
      consistent. */
  lemma {:induction false} PlaceAllConsistent(m: Memory, pid: int, n: nat)
    requires Consistent(m) && Fresh(m, pid) && PlaceAll(m, pid, n).Some?
    ensures Consistent(PlaceAll(m, pid, n).value)
  {
    if n > 0 {
      PlaceAllConsistent(m, pid, n - 1);
      PlaceAllKeeps(m, pid, n - 1);
      var m1, id := PlaceAll(m, pid, n - 1).value, PageId(pid, n - 1);
      assert id !in m1.pages;
      assert PlaceAll(m, pid, n) == PlacePage(m1, id);
      PlacePageConsistent(m1, id);
    }
  }

  /** Once a page finds no frame, the process cannot be placed. */
  lemma {:induction false} PlaceAllStuck(m: Memory, pid: int, i: nat, n: nat)
    requires i < n && PlaceAll(m, pid, i).Some? && PlacePage(PlaceAll(m, pid, i).value, PageId(pid, i)).None?
    ensures PlaceAll(m, pid, n).None?
  {
    if n > i + 1 {
      PlaceAllStuck(m, pid, i, n - 1);
    }
  }

  /** Releasing the pages just placed gives back the memory as it was:
      the rollback of a creation that ran out of room, and equally a
      creation followed by the finishing of that process. */
  lemma RollbackRestores(m: Memory, pid: int, n: nat)
    requires Consistent(m) && Fresh(m, pid) && PlaceAll(m, pid, n).Some?
    ensures Release(PlaceAll(m, pid, n).value, pid, n) == m
  {
    var m' := PlaceAll(m, pid, n).value;
    PlaceAllKeeps(m, pid, n);
    var r := Release(m', pid, n);
    forall f | 0 <= f < |m.ram|
      ensures r.ram[f] == m.ram[f]
    {
      if m.ram[f].Some? {
        assert Holds(m, m.ram[f].value, true, f);
      }
    }
    forall f | 0 <= f < |m.swap|
      ensures r.swap[f] == m.swap[f]
    {
      if m.swap[f].Some? {
        assert Holds(m, m.swap[f].value, false, f);
      }
    }
    assert r.ram == m.ram;
    assert r.swap == m.swap;
    assert r.pages == m.pages;
  }

  // ---------- release: properties ----------

  /** Releasing one more page is taking that page out of its frame. */
  lemma ReleaseStep(m: Memory, pid: int, j: nat)
    requires Consistent(m) && PageId(pid, j) in m.pages
    ensures var r := Release(m, pid, j);
            && PageId(pid, j) in r.pages && r.pages[PageId(pid, j)] == m.pages[PageId(pid, j)]
            && Placed(r, PageId(pid, j))
            && Release(m, pid, j + 1) == Unplace(r, PageId(pid, j))
  {
    var id := PageId(pid, j);
    var r := Release(m, pid, j);
    assert Placed(m, id);
    var u := Unplace(r, id);
    var r' := Release(m, pid, j + 1);
    forall f | 0 <= f < |m.ram|
      ensures r'.ram[f] == u.ram[f]
    {
      if m.ram[f].Some? {
        assert Holds(m, m.ram[f].value, true, f);
      }
    }
    forall f | 0 <= f < |m.swap|
      ensures r'.swap[f] == u.swap[f]
    {
      if m.swap[f].Some? {
        assert Holds(m, m.swap[f].value, false, f);
      }
    }
    assert r'.ram == u.ram;
    assert r'.swap == u.swap;
    assert r'.pages == u.pages;
  }

  // ---------- the process table ----------

  /** Every record belongs to a registered process and names one of its
      pages, and every page of every registered process has a record. */
  predicate Owned(m: Memory, procs: map<int, Proceso>) {
    && (forall x :: x in m.pages ==> x.pid in procs && 0 <= x.index < procs[x.pid].numeroPaginas)
    && (forall pid, i :: pid in procs && 0 <= i < procs[pid].numeroPaginas ==> PageId(pid, i) in m.pages)
  }

  /** Every registered process is filed under its own id, which the counter
      has already handed out, and has the pages its size calls for. */
  predicate Registered(procs: map<int, Proceso>, count: int, tamPagina: int) {
    forall pid :: pid in procs ==>
      && procs[pid].id == pid && 1 <= pid <= count
      && procs[pid].tamanio >= 1 && tamPagina > 0
      && procs[pid].numeroPaginas == PageCount(procs[pid].tamanio, tamPagina)
  }

  /** No page was used after the logical clock's current value. */
  predicate Clocked(m: Memory, clock: int) {
    forall x :: x in m.pages ==> 0 <= m.pages[x].ultimoAcceso <= clock
  }

  /** The pages of a process not yet registered have no records. */
  lemma NewPidFresh(m: Memory, procs: map<int, Proceso>, count: int, tamPagina: int)
    requires Owned(m, procs) && Registered(procs, count, tamPagina)
    ensures Fresh(m, count + 1)
  {
  }

  /** Finishing process `pid` frees exactly the frames that held its pages,
      keeps every other frame and record, and leaves a consistent memory
      owned by the remaining processes. */
  lemma FinalizeFrees(m: Memory, procs: map<int, Proceso>, pid: int)
    requires Consistent(m) && Owned(m, procs) && pid in procs
    ensures var r := Release(m, pid, procs[pid].numeroPaginas);
            && Consistent(r) && Owned(r, procs - {pid}) && Fresh(r, pid)
            && |r.ram| == |m.ram| && |r.swap| == |m.swap|
            && (forall f :: 0 <= f < |m.ram| ==>
                  if m.ram[f].Some? && m.ram[f].value.pid == pid then r.ram[f].None? else r.ram[f] == m.ram[f])
            && (forall f :: 0 <= f < |m.swap| ==>
                  if m.swap[f].Some? && m.swap[f].value.pid == pid then r.swap[f].None? else r.swap[f] == m.swap[f])
            && (forall x :: x in r.pages ==> r.pages[x] == m.pages[x])
  {
    var n := procs[pid].numeroPaginas;
    var r := Release(m, pid, n);
    forall f | 0 <= f < |m.ram| && m.ram[f].Some?
      ensures m.ram[f].value.pid == pid ==> IsPageOf(m.ram[f], pid, n)
    {
      assert Holds(m, m.ram[f].value, true, f);
    }
    forall f | 0 <= f < |m.swap| && m.swap[f].Some?
      ensures m.swap[f].value.pid == pid ==> IsPageOf(m.swap[f], pid, n)
    {
      assert Holds(m, m.swap[f].value, false, f);
    }
  }

  // ---------- access: properties ----------

  /** A hit keeps consistency, the owners and every placement; the page
      becomes the most recently used one. */
  lemma TouchNewest(m: Memory, id: PageId, clock: int)
    requires Consistent(m) && Clocked(m, clock) && id in m.pages
    ensures var r := Touch(m, id, clock + 1);
            && Consistent(r) && Clocked(r, clock + 1)
            && r.ram == m.ram && r.swap == m.swap && r.pages.Keys == m.pages.Keys
            && (forall x :: x in r.pages ==> r.pages[x].enRAM == m.pages[x].enRAM && r.pages[x].marco == m.pages[x].marco)
            && (forall x :: x in r.pages && x != id ==> r.pages[x].ultimoAcceso < r.pages[id].ultimoAcceso)
  {
  }

  /** A fault succeeds exactly when RAM has frames.  The page then sits in
      RAM stamped with the new clock value: in the lowest free frame when
      there is one, every other page staying where it was; otherwise in the
      least recently used page's frame, that page moving to SWAP. */
  lemma FaultInWhere(m: Memory, id: PageId, clock: int)
    requires Consistent(m) && id in m.pages && !m.pages[id].enRAM
    ensures FaultIn(m, id, clock).Some? <==> |m.ram| > 0
    ensures FaultIn(m, id, clock).Some? ==>
              var r := FaultIn(m, id, clock).value;
              var f := FirstFree(m.ram);
              && id in r.pages && r.pages[id].enRAM && r.pages[id].ultimoAcceso == clock
              && (f >= 0 ==> r.pages[id].marco == f && forall x :: x in m.pages && x != id ==> x in r.pages && r.pages[x] == m.pages[x])
              && (f < 0 ==>
                    var v := Lru(m.ram, m.pages);
                    var victim := m.ram[v].value;
                    && OldestUpTo(m.ram, m.pages, |m.ram|, v)
                    && r.pages[id].marco == v && victim != id
                    && victim in r.pages && !r.pages[victim].enRAM
                    && r.pages[victim].ultimoAcceso == m.pages[victim].ultimoAcceso
                    && forall x :: x in m.pages && x != id && x != victim ==> x in r.pages && r.pages[x] == m.pages[x])
  {
    if FirstFree(m.ram) < 0 && |m.ram| > 0 {
      assert m.ram[0].Some?;
      var v := Lru(m.ram, m.pages);
      assert Holds(m, m.ram[v].value, true, v);
    }
  }

  /** A fault keeps the records and the frame tables consistent, records
      the same pages, and leaves the page the most recently used one. */
  lemma FaultInKeeps(m: Memory, id: PageId, clock: int)
    requires Consistent(m) && Clocked(m, clock) && id in m.pages && !m.pages[id].enRAM
    requires FaultIn(m, id, clock + 1).Some?
    ensures var r := FaultIn(m, id, clock + 1).value;
            && Consistent(r) && Clocked(r, clock + 1)
            && r.pages.Keys == m.pages.Keys
            && |r.ram| == |m.ram| && |r.swap| == |m.swap|
            && (forall x :: x in r.pages && x != id ==> r.pages[x].ultimoAcceso < r.pages[id].ultimoAcceso)
  {
    FaultInRecords(m, id, clock + 1);
    if FirstFree(m.ram) >= 0 {
      FaultInFree(m, id, clock + 1);
    } else {
      var v := Lru(m.ram, m.pages);
      FaultInSwap(m, id, v, m.ram[v].value, clock + 1);
    }
  }

  /** A fault changes no page's last use but the faulting page's, and
      neither the set of pages nor the sizes of the tables. */
  lemma FaultInRecords(m: Memory, id: PageId, clock: int)
    requires Consistent(m) && id in m.pages && !m.pages[id].enRAM && FaultIn(m, id, clock).Some?
    ensures var r := FaultIn(m, id, clock).value;
            && r.pages.Keys == m.pages.Keys
            && |r.ram| == |m.ram| && |r.swap| == |m.swap|
            && r.pages[id].ultimoAcceso == clock
            && (forall x :: x in m.pages && x != id ==> r.pages[x].ultimoAcceso == m.pages[x].ultimoAcceso)
  {
    assert Placed(m, id);
    if FirstFree(m.ram) < 0 {
      var v := Lru(m.ram, m.pages);
      assert Holds(m, m.ram[v].value, true, v);
      assert m.swap[m.pages[id].marco := None][m.pages[id].marco].None?;
    }
  }

  lemma FaultInFree(m: Memory, id: PageId, clock: int)
    requires Consistent(m) && id in m.pages && !m.pages[id].enRAM && FirstFree(m.ram) >= 0
    ensures Consistent(FaultIn(m, id, clock).value)
  {
    var s := m.pages[id].marco;
    var f := FirstFree(m.ram);
    assert Placed(m, id);
    var r := FaultIn(m, id, clock).value;
    assert r == Memory(m.ram[f := Some(id)], m.swap[s := None], m.pages[id := Page(true, f, clock)]);
    forall x | x in r.pages
      ensures Placed(r, x)
    {
      if x != id {
        assert Placed(m, x);
      }
    }
    forall f' | 0 <= f' < |r.ram| && r.ram[f'].Some?
      ensures Holds(r, r.ram[f'].value, true, f')
    {
      if f' != f {
        assert Holds(m, m.ram[f'].value, true, f');
      }
    }
    forall g | 0 <= g < |r.swap| && r.swap[g].Some?
      ensures Holds(r, r.swap[g].value, false, g)
    {
      assert g != s && m.swap[g] == r.swap[g];
      assert Holds(m, m.swap[g].value, false, g);
    }
  }

  lemma FaultInSwap(m: Memory, id: PageId, v: int, victim: PageId, clock: int)
    requires Consistent(m) && id in m.pages && !m.pages[id].enRAM
    requires FirstFree(m.ram) < 0 && v == Lru(m.ram, m.pages) && v >= 0 && m.ram[v] == Some(victim)
    ensures Consistent(FaultIn(m, id, clock).value)
  {
    var s := m.pages[id].marco;
    assert Placed(m, id);
    assert Holds(m, victim, true, v);
    var swap1 := m.swap[s := None];
    assert 0 <= s < |m.swap| && swap1[s].None?;
    var g := FirstFree(swap1);
    assert 0 <= g < |swap1|;
    SwapConsistent(m, id, s, victim, v, g, clock);
  }

  /** The exchange at the heart of a fault with RAM full: `id` leaves SWAP
      frame `s` for RAM frame `v`, and `victim` leaves `v` for SWAP frame
      `g`, free once `s` is. */
  lemma SwapConsistent(m: Memory, id: PageId, s: int, victim: PageId, v: int, g: int, clock: int)
    requires Consistent(m) && Holds(m, id, false, s) && Holds(m, victim, true, v)
    requires 0 <= g < |m.swap| && (g == s || m.swap[g].None?)
    ensures Consistent(Memory(m.ram[v := Some(id)], m.swap[s := None][g := Some(victim)],
                              m.pages[victim := m.pages[victim].(enRAM := false, marco := g)][id := Page(true, v, clock)]))
  {
    assert Placed(m, id) && Placed(m, victim);
    var r := Memory(m.ram[v := Some(id)], m.swap[s := None][g := Some(victim)],
                    m.pages[victim := m.pages[victim].(enRAM := false, marco := g)][id := Page(true, v, clock)]);
    forall x | x in r.pages
      ensures Placed(r, x)
    {
      if x != id && x != victim {
        assert Placed(m, x);
      }
    }
    forall f | 0 <= f < |r.ram| && r.ram[f].Some?
      ensures Holds(r, r.ram[f].value, true, f)
    {
      if f != v {
        assert Holds(m, m.ram[f].value, true, f);
      }
    }
    forall f | 0 <= f < |r.swap| && r.swap[f].Some?
      ensures Holds(r, r.swap[f].value, false, f)
    {
      if f != g {
        assert f != s && m.swap[f] == r.swap[f];
        assert Holds(m, m.swap[f].value, false, f);
      }
    }
  }

  /** The simulator's state as the source keeps it: records and frame
      tables agree, every record belongs to a registered process, the
      process table is well filed and no page was used in the future. */
  predicate Sound(m: Memory, procs: map<int, Proceso>, count: int, clock: int, tamPagina: int) {
    && Consistent(m) && Owned(m, procs) && Registered(procs, count, tamPagina) && Clocked(m, clock)
    && count >= 0 && clock >= 0
  }

  /** Ownership depends on which pages have records, not on the records. */
  lemma OwnedSameKeys(m: Memory, m': Memory, procs: map<int, Proceso>)
    requires Owned(m, procs) && m'.pages.Keys == m.pages.Keys
    ensures Owned(m', procs)
  {
    assert forall x :: x in m'.pages <==> x in m.pages;
  }

  /** Registering process `count + 1` once all its pages were placed keeps
      the state sound and the frame tables' sizes. */
  lemma CreateKeeps(m: Memory, procs: map<int, Proceso>, count: int, clock: int, tamPagina: int,
                    pid: int, tamanio: int, n: nat)
    requires Sound(m, procs, count, clock, tamPagina)
    requires pid == count + 1 && tamanio >= 1 && tamPagina > 0 && n == PageCount(tamanio, tamPagina)
    requires PlaceAll(m, pid, n).Some?
    ensures var m' := PlaceAll(m, pid, n).value;
            && Sound(m', procs[pid := Proceso(pid, tamanio, n)], pid, clock, tamPagina)
            && |m'.ram| == |m.ram| && |m'.swap| == |m.swap|
  {
    NewPidFresh(m, procs, count, tamPagina);
    PlaceAllKeeps(m, pid, n);
    PlaceAllConsistent(m, pid, n);
  }

  /** A creation that was rolled back only used up an id. */
  lemma RollbackKeeps(m: Memory, procs: map<int, Proceso>, count: int, clock: int, tamPagina: int)
    requires Sound(m, procs, count, clock, tamPagina)
    ensures Sound(m, procs, count + 1, clock, tamPagina)
  {
  }

  /** Finishing a registered process keeps the state sound. */
  lemma FinalizeKeeps(m: Memory, procs: map<int, Proceso>, count: int, clock: int, tamPagina: int, pid: int)
    requires Sound(m, procs, count, clock, tamPagina) && pid in procs
    ensures var r := Release(m, pid, procs[pid].numeroPaginas);
            && Sound(r, procs - {pid}, count, clock, tamPagina)
            && |r.ram| == |m.ram| && |r.swap| == |m.swap|
  {
    FinalizeFrees(m, procs, pid);
  }

  /** A hit keeps the state sound with the clock one tick on. */
  lemma HitKeeps(m: Memory, procs: map<int, Proceso>, count: int, clock: int, tamPagina: int, id: PageId)
    requires Sound(m, procs, count, clock, tamPagina) && id in m.pages
    ensures var r := Touch(m, id, clock + 1);
            && Sound(r, procs, count, clock + 1, tamPagina)
            && |r.ram| == |m.ram| && |r.swap| == |m.swap|
  {
    TouchNewest(m, id, clock);
    OwnedSameKeys(m, Touch(m, id, clock + 1), procs);
  }

  /** A fault served keeps the state sound with the clock one tick on. */
  lemma FaultKeeps(m: Memory, procs: map<int, Proceso>, count: int, clock: int, tamPagina: int, id: PageId)
    requires Sound(m, procs, count, clock, tamPagina) && id in m.pages && !m.pages[id].enRAM
    requires FaultIn(m, id, clock + 1).Some?
    ensures var r := FaultIn(m, id, clock + 1).value;
            && Sound(r, procs, count, clock + 1, tamPagina)
            && |r.ram| == |m.ram| && |r.swap| == |m.swap|
  {
    FaultInKeeps(m, id, clock);
    OwnedSameKeys(m, FaultIn(m, id, clock + 1).value, procs);
  }

  // ---------- the simulator ----------

  class Simulador {
    const tamanioPagina: int
    const minTamProceso: int
    const maxTamProceso: int
    const numMarcosRAM: int
    const numMarcosSwap: int

    var ram: Frames
    var swap: Frames
    var pages: map<PageId, Page>
    var procesos: map<int, Proceso>
    var contadorProcesos: int
    var pageFaults: int
    var contadorReloj: int

    function Mem(): Memory
      reads this
    {
      Memory(ram, swap, pages)
    }

    ghost predicate Valid()
      reads this
    {
      && tamanioPagina > 0 && 0 < minTamProceso <= maxTamProceso
      && |ram| == numMarcosRAM && |swap| == numMarcosSwap
      && Sound(Mem(), procesos, contadorProcesos, contadorReloj, tamanioPagina)
      && pageFaults >= 0
    }

    /** The invariant, read off a sound memory value equal to the fields. */
    lemma ValidIfSound(m: Memory, procs: map<int, Proceso>, count: int, clock: int)
      requires Mem() == m && procesos == procs && contadorProcesos == count && contadorReloj == clock
      requires tamanioPagina > 0 && 0 < minTamProceso <= maxTamProceso
      requires |m.ram| == numMarcosRAM && |m.swap| == numMarcosSwap && pageFaults >= 0
      requires Sound(m, procs, count, clock, tamanioPagina)
      ensures Valid()
    {
    }

    /** A simulator over `memFisicaMB` MB of RAM cut into pages of `tamPag`
        KB, with `marcosSwap` SWAP frames, all frames free. */
    constructor (memFisicaMB: int, tamPag: int, minProc: int, maxProc: int, marcosSwap: int)
      requires memFisicaMB > 0 && tamPag > 0 && 0 < minProc <= maxProc && marcosSwap >= 0
      ensures Valid()
      ensures numMarcosRAM == memFisicaMB * 1024 / tamPag && numMarcosSwap == marcosSwap
      ensures tamanioPagina == tamPag && minTamProceso == minProc && maxTamProceso == maxProc
      ensures (forall f :: 0 <= f < |ram| ==> ram[f].None?) && (forall f :: 0 <= f < |swap| ==> swap[f].None?)
      ensures pages == map[] && procesos == map[]
      ensures contadorProcesos == 0 && pageFaults == 0 && contadorReloj == 0
    {
      tamanioPagina := tamPag;
      minTamProceso := minProc;
      maxTamProceso := maxProc;
      numMarcosRAM := memFisicaMB * 1024 / tamPag;
      numMarcosSwap := marcosSwap;
      ram := seq(memFisicaMB * 1024 / tamPag, f => None);
      swap := seq(marcosSwap, f => None);
      pages := map[];
      procesos := map[];
      contadorProcesos := 0;
      pageFaults := 0;
      contadorReloj := 0;
    }

    /** Frees the frames of the first `n` pages of `pid` and drops their
        records, page by page. */
    method LiberarPaginas(pid: int, n: nat)
      requires Consistent(Mem())
      requires forall i :: 0 <= i < n ==> PageId(pid, i) in pages
      modifies this
      ensures Mem() == Release(old(Mem()), pid, n)
      ensures procesos == old(procesos) && contadorProcesos == old(contadorProcesos)
      ensures pageFaults == old(pageFaults) && contadorReloj == old(contadorReloj)
    {
      ghost var m0 := Mem();
      var j := 0;
      while j < n
        invariant 0 <= j <= n
        invariant Mem() == Release(m0, pid, j)
        invariant procesos == old(procesos) && contadorProcesos == old(contadorProcesos)
        invariant pageFaults == old(pageFaults) && contadorReloj == old(contadorReloj)
      {
        var id := PageId(pid, j);
        ReleaseStep(m0, pid, j);
        var p := pages[id];
        if p.enRAM {
          ram := ram[p.marco := None];
        } else {
          swap := swap[p.marco := None];
        }
        pages := pages - {id};
        j := j + 1;
      }
    }

    /** The cleanup of a creation that ran out of room: the `i` pages of
        `pid` placed since `m0` are released, which gives `m0` back. */
    method DeshacerCreacion(ghost m0: Memory, pid: int, i: nat)
      requires Consistent(m0) && Fresh(m0, pid) && PlaceAll(m0, pid, i) == Some(Mem())
      modifies this
      ensures Mem() == m0
      ensures procesos == old(procesos) && contadorProcesos == old(contadorProcesos)
      ensures pageFaults == old(pageFaults) && contadorReloj == old(contadorReloj)
    {
      PlaceAllKeeps(m0, pid, i);
      PlaceAllConsistent(m0, pid, i);
      RollbackRestores(m0, pid, i);
      LiberarPaginas(pid, i);
    }

    /** One page of a new process: the lowest free RAM frame, else the
        lowest free SWAP frame; `false`, with nothing changed, when both
        are full. */
    method ColocarPagina(id: PageId) returns (placed: bool)
      modifies this
      ensures placed <==> PlacePage(old(Mem()), id).Some?
      ensures Mem() == if placed then PlacePage(old(Mem()), id).value else old(Mem())
      ensures procesos == old(procesos) && contadorProcesos == old(contadorProcesos)
      ensures pageFaults == old(pageFaults) && contadorReloj == old(contadorReloj)
    {
      var marcoLibre := BuscarMarcoLibre(ram);
      if marcoLibre != -1 {
        ram := ram[marcoLibre := Some(id)];
        pages := pages[id := Page(true, marcoLibre, 0)];
        return true;
      }
      var marcoSwap := BuscarMarcoLibre(swap);
      if marcoSwap != -1 {
        swap := swap[marcoSwap := Some(id)];
        pages := pages[id := Page(false, marcoSwap, 0)];
        return true;
      }
      return false;
    }

    /** The page loop of `crearProceso`: pages `0..n-1` of the new process
        `pid` are placed one by one; when one finds no frame, the pages
        placed so far are released and the memory is as it was. */
    method ColocarPaginas(pid: int, n: nat) returns (ok: bool)
      requires Consistent(Mem()) && Fresh(Mem(), pid)
      modifies this
      ensures ok <==> PlaceAll(old(Mem()), pid, n).Some?
      ensures Mem() == if ok then PlaceAll(old(Mem()), pid, n).value else old(Mem())
      ensures procesos == old(procesos) && contadorProcesos == old(contadorProcesos)
      ensures pageFaults == old(pageFaults) && contadorReloj == old(contadorReloj)
    {
      ghost var m0 := Mem();
      var i := 0;
      while i < n
        invariant 0 <= i <= n
        invariant PlaceAll(m0, pid, i) == Some(Mem())
        invariant procesos == old(procesos) && contadorProcesos == old(contadorProcesos)
        invariant pageFaults == old(pageFaults) && contadorReloj == old(contadorReloj)
      {
        var placed := ColocarPagina(PageId(pid, i));
        if !placed {
          PlaceAllStuck(m0, pid, i, n);
          DeshacerCreacion(m0, pid, i);
          return false;
        }
        i := i + 1;
      }
      return true;
    }

    /** `crearProceso` for a process of `tamanio` MB: the counter hands out
        the next id, which is not given back when the pages do not fit; the
        process is registered only when all its pages found a frame. */
    method CrearProceso(tamanio: int) returns (ok: bool)
      requires Valid()
      requires minTamProceso <= tamanio <= maxTamProceso
      modifies this
      ensures Valid()
      ensures contadorProcesos == old(contadorProcesos) + 1
      ensures pageFaults == old(pageFaults) && contadorReloj == old(contadorReloj)
      ensures var n := PageCount(tamanio, tamanioPagina);
              var placed := PlaceAll(old(Mem()), contadorProcesos, n);
              && (ok <==> placed.Some?)
              && (ok ==> Mem() == placed.value
                         && procesos == old(procesos)[contadorProcesos := Proceso(contadorProcesos, tamanio, n)])
              && (!ok ==> Mem() == old(Mem()) && procesos == old(procesos))
    {
      ghost var m0, procs0, count0, clock := Mem(), procesos, contadorProcesos, contadorReloj;
      assert Sound(m0, procs0, count0, clock, tamanioPagina);
      assert |m0.ram| == numMarcosRAM && |m0.swap| == numMarcosSwap;
      NewPidFresh(m0, procs0, count0, tamanioPagina);
      contadorProcesos := contadorProcesos + 1;
      var pid := contadorProcesos;
      var n := PageCount(tamanio, tamanioPagina);
      ok := ColocarPaginas(pid, n);
      if !ok {
        RollbackKeeps(m0, procs0, count0, clock, tamanioPagina);
        ValidIfSound(m0, procs0, pid, clock);
        return;
      }
      procesos := procesos[pid := Proceso(pid, tamanio, n)];
      CreateKeeps(m0, procs0, count0, clock, tamanioPagina, pid, tamanio, n);
      ValidIfSound(PlaceAll(m0, pid, n).value, procs0[pid := Proceso(pid, tamanio, n)], pid, clock);
    }

    /** `finalizarProcesoAleatorio` for process `pid`, the one the source
        draws at random: nothing happens when there are no processes;
        otherwise the frames of all its pages are freed, their records
        dropped and the process removed. */
    method FinalizarProceso(pid: int)
      requires Valid()
      requires procesos != map[] ==> pid in procesos
      modifies this
      ensures Valid()
      ensures contadorProcesos == old(contadorProcesos)
      ensures pageFaults == old(pageFaults) && contadorReloj == old(contadorReloj)
      ensures old(procesos) == map[] ==> Mem() == old(Mem()) && procesos == old(procesos)
      ensures old(procesos) != map[] ==>
                && Mem() == Release(old(Mem()), pid, old(procesos)[pid].numeroPaginas)
                && procesos == old(procesos) - {pid}
    {
      if procesos == map[] {
        return;
      }
      ghost var m0, procs0 := Mem(), procesos;
      assert Sound(m0, procs0, contadorProcesos, contadorReloj, tamanioPagina);
      var n := procesos[pid].numeroPaginas;
      LiberarPaginas(pid, n);
      procesos := procesos - {pid};
      FinalizeKeeps(m0, procs0, contadorProcesos, contadorReloj, tamanioPagina, pid);
      assert Mem() == Release(m0, pid, n);
    }

    /** `aplicarLRU`: the occupied RAM frame holding the page used longest
        ago, the lowest such frame on a tie, or -1 when RAM holds no page. */
    method AplicarLRU() returns (marcoVictima: int)
      requires Consistent(Mem())
      ensures marcoVictima == Lru(ram, pages)
    {
      marcoVictima := -1;
      var tiempoMasAntiguo := 0;
      for i := 0 to |ram|
        invariant marcoVictima == LruUpTo(ram, pages, i)
        invariant marcoVictima != -1 ==> tiempoMasAntiguo == Age(ram, pages, marcoVictima)
      {
        if ram[i].Some? {
          assert Holds(Mem(), ram[i].value, true, i);
          var t := pages[ram[i].value].ultimoAcceso;
          if marcoVictima == -1 || t < tiempoMasAntiguo {
            tiempoMasAntiguo := t;
            marcoVictima := i;
          }
        }
      }
    }

    /** A hit on `id`: the page is stamped with the next clock value. */
    method TocarPagina(id: PageId)
      requires id in pages
      modifies this
      ensures Mem() == Touch(old(Mem()), id, old(contadorReloj) + 1)
      ensures contadorReloj == old(contadorReloj) + 1
      ensures procesos == old(procesos) && contadorProcesos == old(contadorProcesos) && pageFaults == old(pageFaults)
    {
      contadorReloj := contadorReloj + 1;
      pages := pages[id := pages[id].(ultimoAcceso := contadorReloj)];
    }

    /** The page fault on `id`, a page in SWAP, counted; its SWAP frame is freed, it
        is brought into the lowest free RAM frame or, with RAM full, into
        the LRU victim's frame, the victim going to the lowest free SWAP
        frame; the page is stamped with the next clock value.  `false`,
        with nothing changed, when RAM has no frames (the source throws). */
    method CargarPagina(id: PageId) returns (ok: bool)
      requires Consistent(Mem()) && id in pages && !pages[id].enRAM
      modifies this
      ensures ok <==> |old(ram)| > 0
      ensures ok <==> FaultIn(old(Mem()), id, old(contadorReloj) + 1).Some?
      ensures ok ==> Mem() == FaultIn(old(Mem()), id, old(contadorReloj) + 1).value
      ensures ok ==> contadorReloj == old(contadorReloj) + 1
      ensures !ok ==> Mem() == old(Mem()) && contadorReloj == old(contadorReloj)
      ensures procesos == old(procesos) && contadorProcesos == old(contadorProcesos)
      ensures pageFaults == old(pageFaults) + 1
    {
      ghost var m0 := Mem();
      FaultInWhere(m0, id, contadorReloj + 1);
      pageFaults := pageFaults + 1;
      var marcoSwapOrigen := pages[id].marco;
      assert Placed(m0, id);
      var marcoLibre := BuscarMarcoLibre(ram);
      if marcoLibre == -1 {
        marcoLibre := AplicarLRU();
        if marcoLibre == -1 {
          return false;
        }
        var victima := ram[marcoLibre].value;
        swap := swap[marcoSwapOrigen := None];
        assert swap[marcoSwapOrigen].None?;
        var marcoSwap := BuscarMarcoLibre(swap);
        if marcoSwap == -1 {
          assert false;
        }
        swap := swap[marcoSwap := Some(victima)];
        pages := pages[victima := pages[victima].(enRAM := false, marco := marcoSwap)];
      } else {
        swap := swap[marcoSwapOrigen := None];
      }
      ram := ram[marcoLibre := Some(id)];
      contadorReloj := contadorReloj + 1;
      pages := pages[id := Page(true, marcoLibre, contadorReloj)];
      return true;
    }

    /** A hit on `id`, a page in RAM: the page is stamped with the next
        clock value, and the state stays valid. */
    method AccesoAcierto(id: PageId)
      requires Valid() && id in pages && pages[id].enRAM
      modifies this
      ensures Valid()
      ensures Mem() == Touch(old(Mem()), id, old(contadorReloj) + 1)
      ensures contadorReloj == old(contadorReloj) + 1
      ensures procesos == old(procesos) && contadorProcesos == old(contadorProcesos) && pageFaults == old(pageFaults)
    {
      ghost var m0, procs, count, clock0 := Mem(), procesos, contadorProcesos, contadorReloj;
      assert Sound(m0, procs, count, clock0, tamanioPagina);
      assert |m0.ram| == numMarcosRAM && |m0.swap| == numMarcosSwap;
      TocarPagina(id);
      HitKeeps(m0, procs, count, clock0, tamanioPagina, id);
      ValidIfSound(Touch(m0, id, clock0 + 1), procs, count, clock0 + 1);
    }

    /** A miss on `id`, a page in SWAP: the fault is counted and the page
        brought in, and the state stays valid. */
    method AccesoFallo(id: PageId) returns (ok: bool)
      requires Valid() && id in pages && !pages[id].enRAM
      modifies this
      ensures Valid()
      ensures pageFaults == old(pageFaults) + 1
      ensures ok <==> numMarcosRAM > 0
      ensures ok <==> FaultIn(old(Mem()), id, old(contadorReloj) + 1).Some?
      ensures ok ==> Mem() == FaultIn(old(Mem()), id, old(contadorReloj) + 1).value
                     && contadorReloj == old(contadorReloj) + 1
      ensures !ok ==> Mem() == old(Mem()) && contadorReloj == old(contadorReloj)
      ensures procesos == old(procesos) && contadorProcesos == old(contadorProcesos)
    {
      ghost var m0, procs, count, clock0 := Mem(), procesos, contadorProcesos, contadorReloj;
      assert Sound(m0, procs, count, clock0, tamanioPagina);
      assert |m0.ram| == numMarcosRAM && |m0.swap| == numMarcosSwap;
      ok := CargarPagina(id);
      if ok {
        ghost var r := FaultIn(m0, id, clock0 + 1).value;
        assert Mem() == r && contadorReloj == clock0 + 1;
        FaultKeeps(m0, procs, count, clock0, tamanioPagina, id);
        ValidIfSound(r, procs, count, clock0 + 1);
      } else {
        ValidIfSound(m0, procs, count, clock0);
      }
    }

    /** `accederDireccionVirtual` for page `numPagina` of process `pid`, the
        ones the source draws at random.  Nothing happens without processes.
        A hit stamps the page with the next clock value; a miss counts a
        page fault and brings the page in. */
    method AccederDireccionVirtual(pid: int, numPagina: int) returns (ok: bool)
      requires Valid()
      requires procesos != map[] ==> pid in procesos && 0 <= numPagina < procesos[pid].numeroPaginas
      modifies this
      ensures Valid()
      ensures procesos == old(procesos) && contadorProcesos == old(contadorProcesos)
      ensures old(procesos) == map[] ==>
                ok && Mem() == old(Mem()) && pageFaults == old(pageFaults) && contadorReloj == old(contadorReloj)
      ensures old(procesos) != map[] && old(pages[PageId(pid, numPagina)].enRAM) ==>
                && ok && Mem() == Touch(old(Mem()), PageId(pid, numPagina), old(contadorReloj) + 1)
                && pageFaults == old(pageFaults) && contadorReloj == old(contadorReloj) + 1
      ensures old(procesos) != map[] && !old(pages[PageId(pid, numPagina)].enRAM) ==>
                && pageFaults == old(pageFaults) + 1
                && (ok <==> numMarcosRAM > 0)
                && (ok ==> Mem() == FaultIn(old(Mem()), PageId(pid, numPagina), old(contadorReloj) + 1).value
                           && contadorReloj == old(contadorReloj) + 1)
                && (!ok ==> Mem() == old(Mem()) && contadorReloj == old(contadorReloj))
    {
      if procesos == map[] {
        return true;
      }
      var id := PageId(pid, numPagina);
      assert Owned(Mem(), procesos) && Registered(procesos, contadorProcesos, tamanioPagina);
      assert id in pages;
      if pages[id].enRAM {
        AccesoAcierto(id);
        return true;
      }
      ok := AccesoFallo(id);
    }
  }
}
