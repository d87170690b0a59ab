/** The memory server's requests on its whole state: page table, frames and the
    write-through cache with its use stamps. */
module MemorySpec {
  import opened Bytes
  import opened MemoryTable

  /** What an uncached server would hold: data[j] is frame TableFrames + j. */
  datatype Core = Core(table: seq<Entry>, data: seq<seq<Byte>>)

  datatype Slot = Slot(pid: int, page: int, content: seq<Byte>)

  datatype Settings = Settings(geo: Geometry, slots: nat, perProcess: int)

  /** touched is history: the slots in the order they were inserted, hit or written
      through. contadorBitDeUso is one more than its length. */
  datatype State = State(core: Core, cache: seq<Slot>, uses: seq<int>, touched: seq<nat>)

  const NEVER := -1

  // ----- frames -----

  ghost predicate CoreInv(g: Geometry, c: Core) {
    && TableInv(g, c.table)
    && |c.data| == g.frames - TableFrames(g)
    && (forall j :: 0 <= j < |c.data| ==> |c.data[j]| == g.frameSize)
  }

  predicate Mapped(c: Core, pid: int, page: int) {
    FrameOf(c.table, pid, page) >= 0
  }

  function PageBytes(g: Geometry, c: Core, pid: int, page: int): (b: seq<Byte>)
    requires CoreInv(g, c) && pid >= 1 && Mapped(c, pid, page)
    ensures |b| == g.frameSize
  {
    FrameAfterTable(g, c.table, pid, page);
    c.data[FrameOf(c.table, pid, page) - TableFrames(g)]
  }

  // ----- cache -----

  /** buscarEntradaDeProcesoEnCache. */
  function SlotOf(cache: seq<Slot>, pid: int, page: int): (i: int)
    ensures -1 <= i < |cache|
    ensures i >= 0 ==> cache[i].pid == pid && cache[i].page == page
    ensures forall j :: 0 <= j < (if i < 0 then |cache| else i) ==> !(cache[j].pid == pid && cache[j].page == page)
  {
    if cache == [] then -1
    else if cache[0].pid == pid && cache[0].page == page then 0
    else
      var i := SlotOf(cache[1..], pid, page);
      if i < 0 then -1 else i + 1
  }

  /** cantidadEntradasDeProcesoEnCache. */
  function SlotCount(cache: seq<Slot>, pid: int): nat {
    if cache == [] then 0 else (if cache[0].pid == pid then 1 else 0) + SlotCount(cache[1..], pid)
  }

  /** First slot whose stamp says it was never used, or -1. */
  function FirstNever(uses: seq<int>): (i: int)
    ensures -1 <= i < |uses|
    ensures i >= 0 ==> uses[i] == NEVER
    ensures forall j :: 0 <= j < (if i < 0 then |uses| else i) ==> uses[j] != NEVER
  {
    if uses == [] then -1
    else if uses[0] == NEVER then 0
    else
      var i := FirstNever(uses[1..]);
      if i < 0 then -1 else i + 1
  }

  /** A slot with the least stamp; of several, the last. */
  function Oldest(uses: seq<int>): (i: nat)
    requires uses != []
    ensures i < |uses|
    ensures forall j :: 0 <= j < |uses| ==> uses[i] <= uses[j]
  {
    if |uses| == 1 then 0
    else
      var i := Oldest(uses[..|uses| - 1]);
      if uses[|uses| - 1] <= uses[i] then |uses| - 1 else i
  }

  /** buscarUnaEntradaParaProcesoEnCache. */
  function Victim(uses: seq<int>): (i: nat)
    requires uses != []
    ensures i < |uses|
  {
    var i := FirstNever(uses);
    if i >= 0 then i else Oldest(uses)
  }

  /** When slot i was last touched, counting from 1; 0 when it never was. */
  function LastTouch(touched: seq<nat>, i: nat): (k: nat)
    ensures k <= |touched|
    ensures k > 0 ==> touched[k - 1] == i
    ensures forall j :: k <= j < |touched| ==> touched[j] != i
  {
    if touched == [] then 0
    else if touched[|touched| - 1] == i then |touched|
    else LastTouch(touched[..|touched| - 1], i)
  }

  /** An entry as it lies in bloque_Cache: pid, page and content. */
  function SlotBytes(e: Slot): (b: seq<Byte>)
    requires IsInt(e.pid) && IsInt(e.page)
    ensures |b| == 2 * INT_BYTES + |e.content|
  {
    EncodeInt(e.pid) + EncodeInt(e.page) + e.content
  }

  /** From the content of slot i on: it, and the entry that lies behind it. */
  function SlotRun(cache: seq<Slot>, i: nat): (b: seq<Byte>)
    requires i < |cache|
    requires i + 1 < |cache| ==> IsInt(cache[i + 1].pid) && IsInt(cache[i + 1].page)
    ensures cache[i].content <= b
  {
    cache[i].content + if i + 1 < |cache| then SlotBytes(cache[i + 1]) else []
  }

  /** From frame j on: it, and the frame that lies behind it. */
  function FrameRun(data: seq<seq<Byte>>, j: nat): (b: seq<Byte>)
    requires j < |data|
    ensures data[j] <= b
  {
    data[j] + if j + 1 < |data| then data[j + 1] else []
  }

  ghost predicate CacheInv(st: Settings, s: State)
    requires CoreInv(st.geo, s.core)
  {
    && |s.cache| == |s.uses| == st.slots
    && (st.perProcess > 0 ==> st.slots > 0)
    && (forall i :: 0 <= i < |s.cache| ==> |s.cache[i].content| == st.geo.frameSize)
    && (forall i :: 0 <= i < |s.cache| ==>
          (s.cache[i].pid == NOBODY && s.cache[i].page == NOBODY) || SlotTrue(st.geo, s.core, s.cache[i]))
    && (forall i, j :: 0 <= i < j < |s.cache| && s.cache[i].pid >= 1 ==>
          !(s.cache[i].pid == s.cache[j].pid && s.cache[i].page == s.cache[j].page))
    && (forall pid :: pid >= 1 ==> SlotCount(s.cache, pid) <= st.perProcess || SlotCount(s.cache, pid) == 0)
    && (forall i :: 0 <= i < |s.uses| ==>
          if s.uses[i] == NEVER then s.cache[i].pid == NOBODY
          else s.uses[i] == LastTouch(s.touched, i) > 0)
  }

  /** An occupied slot holds a mapped page as it is in memory. */
  ghost predicate SlotTrue(g: Geometry, c: Core, e: Slot)
    requires CoreInv(g, c)
  {
    e.pid >= 1 && Mapped(c, e.pid, e.page) && e.content == PageBytes(g, c, e.pid, e.page)
  }

  ghost predicate Inv(st: Settings, s: State) {
    CoreInv(st.geo, s.core) && CacheInv(st, s)
  }

  /** Slot i is given a new content and the next stamp. */
  function Touch(s: State, i: nat, e: Slot): State
    requires i < |s.cache| == |s.uses|
  {
    s.(cache := s.cache[i := e], uses := s.uses[i := |s.touched| + 1], touched := s.touched + [i])
  }

  // ----- requests without the cache -----

  function AssignMany(t: seq<Entry>, pid: int, n: int): (r: seq<Entry>)
    requires pid != NOBODY && Count(t, NOBODY) >= n
    ensures |r| == |t|
    decreases if n < 0 then 0 else n
  {
    if n <= 0 then t
    else
      CountNone(t, NOBODY);
      AssignCounts(t, pid, NOBODY);
      AssignMany(AssignOne(t, pid), pid, n - 1)
  }

  function CoreAssign(c: Core, pid: int, n: int): (r: (Core, int))
    requires pid != NOBODY
  {
    if Count(c.table, NOBODY) >= n then (c.(table := AssignMany(c.table, pid, n)), 0) else (c, -1)
  }

  function CoreWrite(g: Geometry, c: Core, pid: int, page: int, off: nat, d: seq<Byte>): (r: (Core, int))
    requires CoreInv(g, c) && pid >= 1 && off + |d| <= g.frameSize
  {
    var f := FrameOf(c.table, pid, page);
    if f >= 0 then
      FrameAfterTable(g, c.table, pid, page);
      (c.(data := c.data[f - TableFrames(g) := Paste(PageBytes(g, c, pid, page), off, d)]), f)
    else (c, -1)
  }

  function CoreFinish(c: Core, pid: int): Core {
    c.(table := Wipe(c.table, pid))
  }

  // ----- the same requests through the cache -----

  /** main_solicitarBytesPagina: result code, and bytes when the page exists. */
  function Read(st: Settings, s: State, pid: int, page: int, off: nat, size: nat): (r: (State, int, seq<Byte>))
    requires Inv(st, s) && pid >= 1 && off + size <= st.geo.frameSize
    requires Mapped(s.core, pid, page) || SlotCount(s.cache, pid) >= st.perProcess
  {
    var i := SlotOf(s.cache, pid, page);
    if i >= 0 then (Touch(s, i, s.cache[i]), 0, s.cache[i].content[off..off + size])
    else
      var f := FrameOf(s.core.table, pid, page);
      var s1 := if SlotCount(s.cache, pid) < st.perProcess
                then Touch(s, Victim(s.uses), Slot(pid, page, PageBytes(st.geo, s.core, pid, page)))
                else s;
      if f >= 0 then (s1, f, PageBytes(st.geo, s.core, pid, page)[off..off + size]) else (s1, -1, [])
  }

  /** main_almacenarBytesPagina. */
  function Write(st: Settings, s: State, pid: int, page: int, off: nat, d: seq<Byte>): (r: (State, int))
    requires Inv(st, s) && pid >= 1 && off + |d| <= st.geo.frameSize
  {
    var (c, f) := CoreWrite(st.geo, s.core, pid, page, off, d);
    var s1 := s.(core := c);
    var i := SlotOf(s.cache, pid, page);
    if i >= 0 then
      assert SlotTrue(st.geo, s.core, s.cache[i]);
      FrameAfterTable(st.geo, s.core.table, pid, page);
      (Touch(s1, i, Slot(pid, page, c.data[f - TableFrames(st.geo)])), f)
    else (s1, f)
  }

  /** main_inicializarPrograma and main_asignarPaginasAProceso. */
  function Assign(s: State, pid: int, n: int): (r: (State, int))
    requires pid != NOBODY
  {
    var (c, res) := CoreAssign(s.core, pid, n);
    (s.(core := c), res)
  }

  /** borrarEntradasDeProcesoEnCache: the stamps stay. */
  function Evict(cache: seq<Slot>, pid: int): (r: seq<Slot>)
    ensures |r| == |cache|
  {
    seq(|cache|, i requires 0 <= i < |cache| =>
      if cache[i].pid == pid then Slot(NOBODY, NOBODY, cache[i].content) else cache[i])
  }

  function Finish(s: State, pid: int): State {
    s.(core := CoreFinish(s.core, pid), cache := Evict(s.cache, pid))
  }

  function Flush(s: State): State {
    s.(cache := seq(|s.cache|, i requires 0 <= i < |s.cache| => Slot(NOBODY, NOBODY, s.cache[i].content)),
       uses := seq(|s.uses|, i => NEVER))
  }
}
