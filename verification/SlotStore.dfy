/**
 The shared sidecar store of the image slots (design-reference/image-slot.js): one
 asynchronous read, edits that may race ahead of it, serialised writes with a dirty
 flag, and a flush when the page unloads.

 A whole file is written each time, and the host applies posted files in order, so
 the sidecar ends up holding the file posted last.
 */
module SlotStore {
  import opened Text

  /** A stored value: an old bare address, or a framing with an optional image. */
  datatype Slot =
    | Bare(url: string)
    | Framed(u: Option<string>, s: real, x: real, y: real)

  type Id = string
  type File = map<Id, Slot>

  function Get(f: File, id: Id): Option<Slot> {
    if id in f then Some(f[id]) else None
  }

  /** `getSlot`: either stored shape, read as a framing. */
  function GetSlot(f: File, id: Id): Option<Slot> {
    match Get(f, id)
    case None => None
    case Some(Bare(url)) => if url == "" then None else Some(Framed(Some(url), 1.0, 0.0, 0.0))
    case Some(v) => Some(v)
  }

  predicate Truthy(v: Slot) {
    v.Framed? || v.url != ""
  }

  predicate LacksImage(v: Slot) {
    v.Bare? || v.u == None || v.u == Some("")
  }

  /** An in-memory value without an image takes over the image on disk. */
  function Inherit(v: Slot, disk: Option<Slot>): Slot {
    if v.Framed? && LacksImage(v) && disk.Some? && Truthy(disk.value) then
      v.(u := if disk.value.Bare? then Some(disk.value.url) else disk.value.u)
    else v
  }

  /** What `load` makes of the file on disk, the edits that ran ahead, and the clears. */
  function Merge(disk: File, slots: File, tombstones: set<Id>): File {
    map id | id in disk.Keys + slots.Keys && id !in tombstones ::
      if id in slots then Inherit(slots[id], Get(disk, id)) else disk[id]
  }

  datatype Phase = Idle | Reading | Merged | Loaded

  /** The host's write function: not there, working, or throwing when it is called. */
  datatype Writer = Absent | Ready | Throwing

  datatype Store = Store(
    slots: File,
    tombstones: set<Id>,
    phase: Phase,
    queued: nat,          // saves waiting for the read
    saving: bool,
    saveDirty: bool,
    writer: Writer,
    posted: seq<File>,
    inFlight: nat,        // writes of `save` not yet settled
    unsaved: bool,        // history: an edit no posted file contains yet
    missed: bool)         // history: a save of an unsaved edit posted nothing, and nothing was posted since

  function Empty(writer: Writer): Store {
    Store(map[], {}, Idle, 0, false, false, writer, [], 0, false, false)
  }

  function Post(st: Store): Store {
    st.(posted := st.posted + [st.slots], unsaved := false, missed := false)
  }

  function Save(st: Store): Store {
    if st.saving then st.(saveDirty := true)
    else match st.writer
      case Absent => st.(missed := st.missed || st.unsaved)
      case Throwing => st.(saving := true, missed := st.missed || st.unsaved)
      case Ready => Post(st).(saving := true, inFlight := st.inFlight + 1)
  }

  datatype Event =
    | StartLoad
    | ReadDone(disk: Option<File>)    // None: nothing usable was read
    | ReadFailed
    | Open
    | SetSlot(id: Id, val: Option<Slot>)
    | RunQueued
    | WriteDone
    | Flush
    | SetWriter(writer: Writer)

  predicate Enabled(st: Store, v: Event) {
    match v
    case ReadDone(_) => st.phase == Reading
    case ReadFailed => st.phase == Reading
    case Open => st.phase == Merged
    case RunQueued => st.phase == Loaded && st.queued > 0
    case WriteDone => st.inFlight > 0
    case _ => true
  }

  function Load(st: Store): Store {
    if st.phase == Idle then st.(phase := Reading) else st
  }

  function Edit(st: Store, id: Id, val: Option<Slot>): Store {
    match val
    case Some(v) => st.(slots := st.slots[id := v], tombstones := st.tombstones - {id}, unsaved := true)
    case None =>
      st.(slots := st.slots - {id}, unsaved := true,
          tombstones := if st.phase == Loaded then st.tombstones else st.tombstones + {id})
  }

  /** A write of `save` has settled, whether it succeeded or not. */
  function Settled(st: Store): Store {
    st.(saving := false, saveDirty := false, inFlight := if st.inFlight > 0 then st.inFlight - 1 else 0)
  }

  function Step(st: Store, v: Event): Store {
    match v
    case StartLoad => Load(st)
    case ReadDone(disk) =>
      var slots := if disk.Some? then Merge(disk.value, st.slots, st.tombstones) else st.slots;
      st.(slots := slots, tombstones := {}, phase := Merged)
    case ReadFailed => st.(phase := Merged)
    case Open => st.(phase := Loaded)
    case SetSlot(id, val) =>
      if id == "" then st
      else
        var st1 := Edit(st, id, val);
        if st.phase == Loaded then Save(st1) else Load(st1).(queued := st.queued + 1)
    case RunQueued => Save(if st.queued > 0 then st.(queued := st.queued - 1) else st)
    case WriteDone => if st.saveDirty then Save(Settled(st)) else Settled(st)
    case Flush => if st.phase == Loaded && st.writer == Ready then Post(st) else st
    case SetWriter(w) => st.(writer := w)
  }

  /** A writer threw: the flag is set for a write that never left. */
  predicate Jammed(st: Store) {
    st.saving && st.inFlight == 0
  }

  // -------------------------------------------------------------- invariant

  predicate Inv(st: Store) {
    // nothing is written before the file on disk has been merged
    && (st.posted != [] ==> st.phase == Loaded)
    // at most one write of `save` is in flight
    && st.inFlight <= (if st.saving then 1 else 0)
    && (st.saveDirty ==> st.saving)
    && (st.saving ==> st.phase == Loaded)
    && (st.queued > 0 ==> st.phase != Idle)
    // an edit is in the last posted file, or a save that will post it is still to come
    && (st.posted != [] && !st.unsaved ==> st.posted[|st.posted| - 1] == st.slots)
    && (st.unsaved ==> st.saveDirty || st.queued > 0 || st.missed)
    && (st.missed ==> st.unsaved)
  }

  lemma SaveKeeps(st: Store)
    requires Inv(st.(queued := st.queued + 1)) && st.phase == Loaded
    ensures Inv(Save(st))
  {
  }

  lemma StepKeeps(st: Store, v: Event)
    requires Inv(st) && Enabled(st, v)
    ensures Inv(Step(st, v))
  {
    match v
    case SetSlot(id, val) =>
      if id != "" && st.phase == Loaded {
        SaveKeeps(Edit(st, id, val));
      }
    case RunQueued => SaveKeeps(st.(queued := st.queued - 1));
    case WriteDone =>
      if st.saveDirty {
        SaveKeeps(Settled(st));
      }
    case _ =>
  }

  // ------------------------------------------------------------------- runs

  /** The state after the events `es`, from an empty store. */
  function Exec(writer: Writer, es: seq<Event>): Store {
    if es == [] then Empty(writer)
    else Step(Exec(writer, es[..|es| - 1]), es[|es| - 1])
  }

  predicate Possible(writer: Writer, es: seq<Event>) {
    es == [] ||
    (Possible(writer, es[..|es| - 1]) && Enabled(Exec(writer, es[..|es| - 1]), es[|es| - 1]))
  }

  lemma {:induction false} ExecInv(writer: Writer, es: seq<Event>)
    requires Possible(writer, es)
    ensures Inv(Exec(writer, es))
  {
    if es != [] {
      ExecInv(writer, es[..|es| - 1]);
      StepKeeps(Exec(writer, es[..|es| - 1]), es[|es| - 1]);
    }
  }

  /** The read has ended, one way or the other. */
  predicate HasRead(es: seq<Event>) {
    exists i :: 0 <= i < |es| && (es[i].ReadDone? || es[i].ReadFailed?)
  }

  lemma ReadEnds(st: Store, v: Event)
    requires Enabled(st, v) && Unread(st) && !v.ReadDone? && !v.ReadFailed? && !v.RunQueued?
    ensures Unread(Step(st, v))
  {
    match v
    case WriteDone => SaveSlots(Settled(st));
    case _ =>
  }

  lemma {:induction false} UnreadUntilRead(writer: Writer, es: seq<Event>)
    requires Possible(writer, es)
    ensures Unread(Exec(writer, es)) || HasRead(es)
  {
    if es != [] {
      var front, v := es[..|es| - 1], es[|es| - 1];
      UnreadUntilRead(writer, front);
      if HasRead(front) {
        var i :| 0 <= i < |front| && (front[i].ReadDone? || front[i].ReadFailed?);
        assert es[i] == front[i];
      } else if v.ReadDone? || v.ReadFailed? {
        assert es[|front|] == v;
      } else {
        ReadEnds(Exec(writer, front), v);
      }
    }
  }

  /** In every interleaving: no write before the read has ended, and one `save` write at a time. */
  lemma WritesAreSerial(writer: Writer, es: seq<Event>)
    requires Possible(writer, es)
    ensures var st := Exec(writer, es);
            && (st.posted != [] ==> st.phase == Loaded && HasRead(es))
            && st.inFlight <= 1 && (st.inFlight == 1 ==> st.saving)
  {
    ExecInv(writer, es);
    UnreadUntilRead(writer, es);
  }

  predicate Quiescent(st: Store) {
    st.phase == Loaded && !st.saving && st.queued == 0
  }

  /**
   At quiescence the edits are in the last posted file exactly when no save of them
   was lost for want of a working writer; the file then equals the slots in memory.
   */
  lemma QuiescentFile(writer: Writer, es: seq<Event>, st: Store)
    requires Possible(writer, es) && st == Exec(writer, es) && Quiescent(st)
    ensures FileIsCurrentUnlessMissed(st)
  {
    ExecInv(writer, es);
    QuiescentState(st);
  }

  predicate FileIsCurrentUnlessMissed(st: Store) {
    && (st.unsaved <==> st.missed)
    && (st.posted != [] && !st.missed ==> st.posted[|st.posted| - 1] == st.slots)
  }

  lemma QuiescentState(st: Store)
    requires Inv(st) && Quiescent(st)
    ensures FileIsCurrentUnlessMissed(st)
  {
  }

  predicate AlwaysWriter(es: seq<Event>) {
    forall i :: 0 <= i < |es| ==> es[i].SetWriter? ==> es[i].writer == Ready
  }

  lemma SaveKeepsWriter(st: Store)
    requires st.writer == Ready && !st.missed
    ensures Save(st).writer == Ready && !Save(st).missed
  {
  }

  lemma StepKeepsWriter(st: Store, v: Event)
    requires st.writer == Ready && !st.missed && (v.SetWriter? ==> v.writer == Ready)
    ensures Step(st, v).writer == Ready && !Step(st, v).missed
  {
    match v
    case SetSlot(id, val) => SaveKeepsWriter(Edit(st, id, val));
    case RunQueued => SaveKeepsWriter(if st.queued > 0 then st.(queued := st.queued - 1) else st);
    case WriteDone => SaveKeepsWriter(Settled(st));
    case _ =>
  }

  lemma {:induction false} WriterNeverMisses(es: seq<Event>)
    requires AlwaysWriter(es)
    ensures Exec(Ready, es).writer == Ready && !Exec(Ready, es).missed
  {
    if es != [] {
      WriterNeverMisses(es[..|es| - 1]);
      StepKeepsWriter(Exec(Ready, es[..|es| - 1]), es[|es| - 1]);
    }
  }

  predicate IsEdit(v: Event) {
    v.SetSlot? && v.id != ""
  }

  predicate HasEdit(es: seq<Event>) {
    exists i :: 0 <= i < |es| && IsEdit(es[i])
  }

  predicate Recorded(st: Store) {
    st.posted != [] || st.unsaved
  }

  lemma StepRecords(st: Store, v: Event)
    requires Recorded(st) || IsEdit(v)
    ensures Recorded(Step(st, v))
  {
    match v
    case SetSlot(id, val) => assert Edit(st, id, val).unsaved && Edit(st, id, val).posted == st.posted;
    case _ =>
  }

  lemma {:induction false} EditIsPostedOrUnsaved(writer: Writer, es: seq<Event>)
    requires HasEdit(es)
    ensures Recorded(Exec(writer, es))
  {
    var init := es[..|es| - 1];
    if !IsEdit(es[|es| - 1]) {
      var i :| 0 <= i < |es| && IsEdit(es[i]);
      assert init[i] == es[i];
      EditIsPostedOrUnsaved(writer, init);
    }
    StepRecords(Exec(writer, init), es[|es| - 1]);
  }

  /** With the host's writer there throughout, a quiet store has written every edit. */
  lemma QuietStoreIsWritten(es: seq<Event>)
    requires Possible(Ready, es) && AlwaysWriter(es) && HasEdit(es)
    requires Quiescent(Exec(Ready, es))
    ensures var st := Exec(Ready, es); st.posted != [] && st.posted[|st.posted| - 1] == st.slots
  {
    WriterNeverMisses(es);
    QuiescentFile(Ready, es, Exec(Ready, es));
    EditIsPostedOrUnsaved(Ready, es);
  }

  /** The event saves while the flag is clear, and the writer throws. */
  predicate Throws(st: Store, v: Event) {
    st.writer == Throwing &&
    match v
    case SetSlot(id, _) => id != "" && st.phase == Loaded && !st.saving
    case RunQueued => !st.saving
    case WriteDone => st.saveDirty
    case _ => false
  }

  lemma JammedStep(st: Store, v: Event)
    requires Inv(st) && Enabled(st, v)
    ensures Jammed(Step(st, v)) <==> Jammed(st) || Throws(st, v)
    ensures Jammed(st) && v != Flush ==> Step(st, v).posted == st.posted
  {
  }

  predicate ThrowsAt(writer: Writer, es: seq<Event>, i: nat)
    requires i < |es|
  {
    Throws(Exec(writer, es[..i]), es[i])
  }

  lemma {:induction false} JamHistory(writer: Writer, es: seq<Event>)
    requires Possible(writer, es)
    ensures Jammed(Exec(writer, es)) <==> exists i :: 0 <= i < |es| && ThrowsAt(writer, es, i)
  {
    if es != [] {
      var front := es[..|es| - 1];
      JamHistory(writer, front);
      ExecInv(writer, front);
      JammedStep(Exec(writer, front), es[|es| - 1]);
      forall i | 0 <= i < |front| ensures ThrowsAt(writer, front, i) == ThrowsAt(writer, es, i) {
        assert front[..i] == es[..i];
      }
      assert ThrowsAt(writer, es, |front|) == Throws(Exec(writer, front), es[|front|]);
    }
  }

  /** The page is not unloaded from event `n` on. */
  predicate NoFlush(es: seq<Event>, n: nat) {
    forall i :: n <= i < |es| ==> es[i] != Flush
  }

  lemma {:induction false} JammedPostsNothing(writer: Writer, es: seq<Event>, n: nat)
    requires Possible(writer, es) && n <= |es| && Jammed(Exec(writer, es[..n])) && NoFlush(es, n)
    ensures Jammed(Exec(writer, es)) && Exec(writer, es).posted == Exec(writer, es[..n]).posted
    decreases |es|
  {
    if n == |es| {
      assert es[..n] == es;
    } else {
      var front := es[..|es| - 1];
      assert front[..n] == es[..n];
      JammedPostsNothing(writer, front, n);
      ExecInv(writer, front);
      JammedStep(Exec(writer, front), es[|es| - 1]);
    }
  }

  /**
   The flag is set without a write in flight exactly from the first save on that found it
   clear and a writer that throws; after that no save posts anything.
   */
  lemma JammedForEver(writer: Writer, es: seq<Event>, n: nat)
    requires Possible(writer, es) && n <= |es|
    ensures Jammed(Exec(writer, es)) <==> exists i :: 0 <= i < |es| && ThrowsAt(writer, es, i)
    ensures Jammed(Exec(writer, es[..n])) && NoFlush(es, n) ==>
              Exec(writer, es).posted == Exec(writer, es[..n]).posted
  {
    JamHistory(writer, es);
    if Jammed(Exec(writer, es[..n])) && NoFlush(es, n) {
      JammedPostsNothing(writer, es, n);
    }
  }

  predicate NeverThrows(es: seq<Event>) {
    SetWriter(Throwing) !in es
  }

  lemma StepNeverJams(st: Store, v: Event)
    requires Inv(st) && Enabled(st, v) && !Jammed(st) && st.writer != Throwing && v != SetWriter(Throwing)
    ensures !Jammed(Step(st, v)) && Step(st, v).writer != Throwing
  {
  }

  /** With a writer that never throws, the flag is set exactly while a write is in flight. */
  lemma {:induction false} FlagIsExact(writer: Writer, es: seq<Event>)
    requires Possible(writer, es) && writer != Throwing && NeverThrows(es)
    ensures var st := Exec(writer, es); (st.saving <==> st.inFlight == 1) && st.writer != Throwing
  {
    ExecInv(writer, es);
    if es != [] {
      var front := es[..|es| - 1];
      FlagIsExact(writer, front);
      ExecInv(writer, front);
      StepNeverJams(Exec(writer, front), es[|es| - 1]);
    }
  }

  lemma OneMore(writer: Writer, es: seq<Event>, v: Event)
    requires Possible(writer, es) && Enabled(Exec(writer, es), v)
    ensures Possible(writer, es + [v]) && Exec(writer, es + [v]) == Step(Exec(writer, es), v)
  {
    assert (es + [v])[..|es|] == es;
  }

  lemma OpenedEmpty()
    ensures var es := [StartLoad, ReadDone(None), Open];
            Possible(Absent, es) && Exec(Absent, es) == Empty(Absent).(phase := Loaded)
  {
    var e1 := [StartLoad];
    var e2 := [StartLoad, ReadDone(None)];
    OneMore(Absent, [], StartLoad);
    assert [] + [StartLoad] == e1;
    assert Exec(Absent, e1) == Empty(Absent).(phase := Reading);
    OneMore(Absent, e1, ReadDone(None));
    assert e1 + [ReadDone(None)] == e2;
    OneMore(Absent, e2, Open);
    assert e2 + [Open] == [StartLoad, ReadDone(None), Open];
  }

  /** An edit made before the host's writer is there is not written by its arrival. */
  lemma LateWriterLosesEdit(id: Id, v: Slot)
    requires id != ""
    ensures var es := [StartLoad, ReadDone(None), Open, SetSlot(id, Some(v)), SetWriter(Ready)];
            && Possible(Absent, es) && Quiescent(Exec(Absent, es))
            && Exec(Absent, es).posted == [] && id in Exec(Absent, es).slots
  {
    var e3 := [StartLoad, ReadDone(None), Open];
    OpenedEmpty();
    OneMore(Absent, e3, SetSlot(id, Some(v)));
    var st := Exec(Absent, e3 + [SetSlot(id, Some(v))]);
    assert st.posted == [] && !st.saving && st.queued == 0 && st.phase == Loaded && id in st.slots;
    OneMore(Absent, e3 + [SetSlot(id, Some(v))], SetWriter(Ready));
    assert e3 + [SetSlot(id, Some(v))] + [SetWriter(Ready)] ==
           [StartLoad, ReadDone(None), Open, SetSlot(id, Some(v)), SetWriter(Ready)];
  }

  // ------------------------------------------------- what each slot ends up as

  /** The last edit of `id`: none, a clear, or a value. */
  function LastEdit(es: seq<Event>, id: Id): Option<Option<Slot>> {
    if es == [] then None
    else
      var v := es[|es| - 1];
      if v.SetSlot? && v.id == id && id != "" then Some(v.val) else LastEdit(es[..|es| - 1], id)
  }

  /** What `id` should hold: its last edit, or else what was read from disk. */
  function Intended(es: seq<Event>, id: Id): Option<Slot> {
    if es == [] then None
    else
      var v := es[|es| - 1];
      var init := es[..|es| - 1];
      if v.SetSlot? && v.id == id && id != "" then v.val
      else if v.ReadDone? && v.disk.Some? then
        match LastEdit(init, id)
        case None => Get(v.disk.value, id)
        case Some(None) => None
        case Some(Some(val)) => Some(Inherit(val, Get(v.disk.value, id)))
      else Intended(init, id)
  }

  /** Which steps change what `id` holds. */
  lemma StepSlots(st: Store, v: Event, id: Id)
    ensures Get(Step(st, v).slots, id) ==
            if v.SetSlot? && v.id == id && id != "" then v.val
            else if v.ReadDone? && v.disk.Some? then Get(Merge(v.disk.value, st.slots, st.tombstones), id)
            else Get(st.slots, id)
  {
    match v
    case SetSlot(i, val) =>
      assert Get(Edit(st, i, val).slots, id) == if i == id then val else Get(st.slots, id);
      SaveSlots(Edit(st, i, val));
    case RunQueued => SaveSlots(if st.queued > 0 then st.(queued := st.queued - 1) else st);
    case WriteDone => SaveSlots(Settled(st));
    case _ =>
  }

  lemma SavedSlots(st: Store, id: Id, val: Option<Slot>)
    requires id != "" && val.Some?
    ensures Step(st, SetSlot(id, val)).slots == st.slots[id := val.value]
  {
    SaveSlots(Edit(st, id, val));
  }

  lemma SaveSlots(st: Store)
    ensures Save(st).slots == st.slots && Save(st).tombstones == st.tombstones && Save(st).phase == st.phase
  {
  }

  /** The file on disk has not been read yet. */
  predicate Unread(st: Store) {
    st.phase == Idle || st.phase == Reading
  }

  /** The phase never goes back. */
  lemma StepPhase(st: Store, v: Event)
    requires Enabled(st, v) && Unread(Step(st, v))
    ensures Unread(st) && !v.ReadDone? && !v.RunQueued?
  {
    match v
    case WriteDone => SaveSlots(Settled(st));
    case SetSlot(id, val) => SaveSlots(Edit(st, id, val));
    case _ =>
  }

  lemma StepTombstones(st: Store, v: Event, id: Id)
    requires Unread(st) && !v.ReadDone? && !v.RunQueued?
    ensures id in Step(st, v).tombstones <==>
            if v.SetSlot? && v.id == id && id != "" then v.val == None else id in st.tombstones
  {
    match v
    case SetSlot(i, val) => assert Edit(st, i, val).phase == st.phase;
    case WriteDone => SaveSlots(Settled(st));
    case _ =>
  }

  lemma {:induction false} BeforeMerge(writer: Writer, es: seq<Event>, id: Id)
    requires Possible(writer, es) && Unread(Exec(writer, es))
    ensures var st := Exec(writer, es);
            && Get(st.slots, id) == (if LastEdit(es, id) == None then None else LastEdit(es, id).value)
            && (id in st.tombstones <==> LastEdit(es, id) == Some(None))
  {
    if es != [] {
      var st := Exec(writer, es[..|es| - 1]);
      var v := es[|es| - 1];
      StepPhase(st, v);
      StepTombstones(st, v, id);
      StepSlots(st, v, id);
      BeforeMerge(writer, es[..|es| - 1], id);
    }
  }

  /**
   In every interleaving each slot holds its last in-memory edit, or else its value
   on disk; an edit of the framing alone that ran ahead of the read keeps the image
   on disk.
   */
  lemma {:induction false} SlotsAreAsIntended(writer: Writer, es: seq<Event>, id: Id)
    requires Possible(writer, es)
    ensures Get(Exec(writer, es).slots, id) == Intended(es, id)
  {
    if es != [] {
      var init := es[..|es| - 1];
      var st := Exec(writer, init);
      var v := es[|es| - 1];
      SlotsAreAsIntended(writer, init, id);
      StepSlots(st, v, id);
      if v.ReadDone? {
        BeforeMerge(writer, init, id);
      }
    }
  }

  /** Put together: a quiet store's file holds, slot by slot, what was intended. */
  lemma FileIsAsIntended(es: seq<Event>, id: Id)
    requires Possible(Ready, es) && AlwaysWriter(es) && HasEdit(es)
    requires Quiescent(Exec(Ready, es))
    ensures var posted := Exec(Ready, es).posted;
            posted != [] && Get(posted[|posted| - 1], id) == Intended(es, id)
  {
    QuietStoreIsWritten(es);
    SlotsAreAsIntended(Ready, es, id);
  }

  /** The image address a file holds for `id`, in either stored shape. */
  function ImageOn(disk: File, id: Id): Option<string> {
    if id !in disk then None
    else
      match disk[id]
      case Bare(url) => if url != "" then Some(url) else None
      case Framed(u, _, _, _) => if u.Some? && u.value != "" then u else None
  }

  /** No event of `es` edits `id`. */
  predicate Untouched(es: seq<Event>, id: Id) {
    forall i :: 0 <= i < |es| ==> es[i].SetSlot? ==> es[i].id != id
  }

  /** After the read, a slot changes by its own edits alone. */
  lemma {:induction false} StaysAfterRead(writer: Writer, es: seq<Event>, more: seq<Event>, id: Id)
    requires Possible(writer, es + more) && !Unread(Exec(writer, es)) && Untouched(more, id)
    ensures !Unread(Exec(writer, es + more))
    ensures Get(Exec(writer, es + more).slots, id) == Get(Exec(writer, es).slots, id)
    decreases |more|
  {
    if more == [] {
      assert es + more == es;
    } else {
      var front, v := more[..|more| - 1], more[|more| - 1];
      assert (es + more)[..|es + more| - 1] == es + front;
      StaysAfterRead(writer, es, front, id);
      LaterStep(Exec(writer, es + front), v, id);
    }
  }

  lemma LaterStep(st: Store, v: Event, id: Id)
    requires !Unread(st) && Enabled(st, v) && (v.SetSlot? ==> v.id != id)
    ensures !Unread(Step(st, v)) && Get(Step(st, v).slots, id) == Get(st.slots, id)
  {
    StepSlots(st, v, id);
    if Unread(Step(st, v)) {
      StepPhase(st, v);
    }
  }

  /**
   A framing that was edited before the file was read keeps its scale and offsets, and
   takes the image on disk, in either stored shape, exactly when it has none itself: at
   once, and until the slot is edited again. With nothing of use on disk it stays as it is.
   */
  lemma HydrationKeepsImage(writer: Writer, es: seq<Event>, disk: File, more: seq<Event>, id: Id,
                            u: Option<string>, s: real, x: real, y: real)
    requires Possible(writer, es + [ReadDone(Some(disk))] + more) && Untouched(more, id)
    requires LastEdit(es, id) == Some(Some(Framed(u, s, x, y)))
    ensures var held := Get(Exec(writer, es + [ReadDone(Some(disk))] + more).slots, id);
            && held.Some? && held.value.Framed?
            && held.value.s == s && held.value.x == x && held.value.y == y
            && (u.Some? && u.value != "" ==> held.value.u == u)
            && (id !in disk || disk[id] == Bare("") ==> held.value.u == u)
            && ((u.None? || u.value == "") && ImageOn(disk, id).Some? ==> held.value.u == ImageOn(disk, id))
            && ((u.None? || u.value == "") && ImageOn(disk, id).None? ==>
                  held.value.u.None? || held.value.u.value == "")
  {
    var read := es + [ReadDone(Some(disk))];
    PossiblePrefix(writer, read, more);
    assert read[..|es|] == es;
    StaysAfterRead(writer, read, more, id);
    BeforeMerge(writer, es, id);
    StepSlots(Exec(writer, es), ReadDone(Some(disk)), id);
  }

  lemma {:induction false} PossiblePrefix(writer: Writer, es: seq<Event>, more: seq<Event>)
    requires Possible(writer, es + more)
    ensures Possible(writer, es)
    decreases |more|
  {
    if more == [] {
      assert es + more == es;
    } else {
      assert (es + more)[..|es + more| - 1] == es + more[..|more| - 1];
      PossiblePrefix(writer, es, more[..|more| - 1]);
    }
  }

  /**
   A slot that was never edited shows what the file holds, from the read on: an old bare
   address as an image at its own scale, in the middle; a framing as it is.
   */
  lemma UntouchedShowsDisk(writer: Writer, es: seq<Event>, disk: File, more: seq<Event>, id: Id)
    requires Possible(writer, es + [ReadDone(Some(disk))] + more) && Untouched(es, id) && Untouched(more, id)
    ensures var shown := GetSlot(Exec(writer, es + [ReadDone(Some(disk))] + more).slots, id);
            if id !in disk || disk[id] == Bare("") then shown == None
            else if disk[id].Bare? then shown == Some(Framed(Some(disk[id].url), 1.0, 0.0, 0.0))
            else shown == Some(disk[id])
  {
    var read := es + [ReadDone(Some(disk))];
    PossiblePrefix(writer, read, more);
    assert read[..|es|] == es;
    StaysAfterRead(writer, read, more, id);
    NeverEdited(es, id);
    BeforeMerge(writer, es, id);
    StepSlots(Exec(writer, es), ReadDone(Some(disk)), id);
  }

  lemma {:induction false} NeverEdited(es: seq<Event>, id: Id)
    requires Untouched(es, id)
    ensures LastEdit(es, id) == None
  {
    if es != [] {
      NeverEdited(es[..|es| - 1], id);
    }
  }

  /**
   In every run: an unload flush of a hydrated store with a working writer posts the slots
   as they are, whatever save is in flight, so that no edit is left out; any other flush
   does nothing.
   */
  lemma FlushPosts(writer: Writer, es: seq<Event>)
    requires Possible(writer, es)
    ensures var st, st' := Exec(writer, es), Exec(writer, es + [Flush]);
            && Possible(writer, es + [Flush]) && st'.slots == st.slots
            && (if st.phase == Loaded && st.writer == Ready then
                  st'.posted == st.posted + [st.slots] && !st'.unsaved
                else st' == st)
  {
    OneMore(writer, es, Flush);
  }

  // ---------------------------------------------------------------- duplication

  function TrailingDigits(s: string): (n: nat)
    ensures n <= |s|
  {
    if s != "" && IsDigit(s[|s| - 1]) then 1 + TrailingDigits(s[..|s| - 1]) else 0
  }

  /** The id without its numeric suffix, unless nothing would be left. */
  function Stem(id: Id): Id {
    var n := TrailingDigits(id);
    if n > 0 && |id| > n + 1 && id[|id| - n - 1] == '-' then id[..|id| - n - 1] else id
  }

  function Candidate(from: Id, n: nat): Id {
    Stem(from) + "-" + Decimal(n)
  }

  /** Both ids hold an image, with the same framing. */
  predicate SameImage(slots: File, a: Id, b: Id) {
    && GetSlot(slots, a).Some? && GetSlot(slots, a) == GetSlot(slots, b)
    && !LacksImage(GetSlot(slots, a).value)
  }

  /** An id a duplicate of `from` may take: free for the caller, and unused or a copy already. */
  predicate Usable(slots: File, taken: set<Id>, from: Id, to: Id) {
    to != from && to !in taken && (to in slots ==> SameImage(slots, to, from))
  }

  predicate DigitsFrom(s: string, k: int) {
    forall i :: 0 <= i < |s| && k <= i ==> IsDigit(s[i])
  }

  /** A numbered id: `base`, a dash and digits. */
  predicate IsNumbered(id: Id, base: Id) {
    |base| + 1 < |id| && id[..|base|] == base && id[|base|] == '-' && DigitsFrom(id, |base| + 1)
  }

  lemma {:induction false} TrailingDigitsAre(s: string, n: nat)
    requires n <= |s| && DigitsFrom(s, |s| - n) && (n < |s| ==> !IsDigit(s[|s| - n - 1]))
    ensures TrailingDigits(s) == n
  {
    if n > 0 {
      TrailingDigitsAre(s[..|s| - 1], n - 1);
    }
  }

  lemma {:induction false} TrailingAreDigits(s: string)
    ensures DigitsFrom(s, |s| - TrailingDigits(s))
  {
    if s != "" && IsDigit(s[|s| - 1]) {
      var front := s[..|s| - 1];
      TrailingAreDigits(front);
      forall i | 0 <= i < |s| && |s| - TrailingDigits(s) <= i ensures IsDigit(s[i]) {
        assert i < |front| ==> s[i] == front[i];
      }
    }
  }

  /** Duplicates are numbered after the id without its own number: `hero-2` gives `hero-3`, not `hero-2-2`. */
  lemma StemExactly(id: Id, base: Id)
    requires base != ""
    ensures IsNumbered(id, base) ==> Stem(id) == base
    ensures (forall b :: b != "" ==> !IsNumbered(id, b)) ==> Stem(id) == id
  {
    if IsNumbered(id, base) {
      TrailingDigitsAre(id, |id| - |base| - 1);
    }
    var k := TrailingDigits(id);
    TrailingAreDigits(id);
    if k > 0 && |id| > k + 1 && id[|id| - k - 1] == '-' {
      assert IsNumbered(id, id[..|id| - k - 1]);
    }
  }

  /** An id is usable when it is free, or holds the very image and framing already. */
  lemma UsableExactly(slots: File, taken: set<Id>, from: Id, to: Id)
    ensures to == from || to in taken ==> !Usable(slots, taken, from, to)
    ensures to != from && to !in taken && to !in slots ==> Usable(slots, taken, from, to)
    ensures to != from && to !in taken && to in slots && from in slots && slots[to].Framed? && slots[from].Framed? ==>
              (Usable(slots, taken, from, to) <==>
                 slots[to] == slots[from] && slots[to].u.Some? && slots[to].u.value != "")
    ensures to in slots && from !in slots ==> !Usable(slots, taken, from, to)
  {
  }

  // --------------------------------------------------------------- the store

  /** The module variables and functions of the script. */
  class SidecarStore {
    var slots: File
    var tombstones: set<Id>
    var phase: Phase
    var queued: nat
    var saving: bool
    var saveDirty: bool
    var writer: Writer
    ghost var posted: seq<File>
    ghost var inFlight: nat
    ghost var unsaved: bool
    ghost var missed: bool

    ghost function State(): Store
      reads this
    {
      Store(slots, tombstones, phase, queued, saving, saveDirty, writer, posted, inFlight, unsaved, missed)
    }

    constructor (writer: Writer)
      ensures State() == Empty(writer)
    {
      slots, tombstones, phase, queued := map[], {}, Idle, 0;
      saving, saveDirty, this.writer := false, false, writer;
      posted, inFlight, unsaved, missed := [], 0, false, false;
    }

    method WriteFile()
      modifies `posted, `unsaved, `missed
      ensures State() == Post(old(State()))
    {
      posted := posted + [slots];
      unsaved, missed := false, false;
    }

    method SaveNow()
      modifies `posted, `unsaved, `missed, `saving, `saveDirty, `inFlight
      ensures State() == Save(old(State()))
    {
      if saving {
        saveDirty := true;
        return;
      }
      if writer == Absent {
        missed := missed || unsaved;
        return;
      }
      saving := true;
      if writer == Throwing {
        missed := missed || unsaved;
        return;
      }
      inFlight := inFlight + 1;
      WriteFile();
    }

    method OnWriteDone()
      modifies `posted, `unsaved, `missed, `saving, `saveDirty, `inFlight
      ensures State() == Step(old(State()), WriteDone)
    {
      inFlight := if inFlight > 0 then inFlight - 1 else 0;
      saving := false;
      if saveDirty {
        saveDirty := false;
        SaveNow();
      }
    }

    method FlushNow()
      modifies `posted, `unsaved, `missed
      ensures State() == Step(old(State()), Flush)
    {
      if phase != Loaded || writer != Ready {
        return;
      }
      WriteFile();
    }

    method Put(id: Id, val: Option<Slot>)
      modifies this
      ensures State() == Step(old(State()), SetSlot(id, val))
    {
      if id == "" {
        return;
      }
      match val {
        case Some(v) =>
          slots := slots[id := v];
          tombstones := tombstones - {id};
        case None =>
          slots := slots - {id};
          if phase != Loaded {
            tombstones := tombstones + {id};
          }
      }
      unsaved := true;
      assert State() == Edit(old(State()), id, val);
      if phase == Loaded {
        SaveNow();
      } else {
        if phase == Idle {
          phase := Reading;
        }
        queued := queued + 1;
      }
    }

    /**
     `cloneSlot`, for a caller whose `isFree` refuses `taken`: the first usable
     candidate then holds what `from` holds, and no other slot changes.
     */
    method CloneSlot(from: Id, taken: set<Id>) returns (r: Option<Id>)
      modifies this
      ensures r.None? ==> State() == old(State())
      ensures r.None? <==> from == "" || old(phase) != Loaded
                           || forall n :: 2 <= n < 100 ==> !Usable(old(slots), taken, from, Candidate(from, n))
      ensures r.Some? ==>
                && Usable(old(slots), taken, from, r.value)
                && GetSlot(slots, r.value) == GetSlot(old(slots), from)
                && forall id :: id != r.value ==> Get(slots, id) == Get(old(slots), id)
      ensures r.Some? ==> exists n :: 2 <= n < 100 && r.value == Candidate(from, n)
                            && forall k :: 2 <= k < n ==> !Usable(old(slots), taken, from, Candidate(from, k))
    {
      if from == "" || phase != Loaded {
        return None;
      }
      for n := 2 to 100
        invariant State() == old(State())
        invariant forall k :: 2 <= k < n ==> !Usable(slots, taken, from, Candidate(from, k))
      {
        var to := Candidate(from, n);
        if Usable(slots, taken, from, to) {
          var v := GetSlot(slots, from);
          if to !in slots && v.Some? {
            Put(to, v);
            SavedSlots(old(State()), to, v);
          }
          return Some(to);
        }
      }
      return None;
    }

    /** The merge of `load`: an edit that lacks an image inherits the one on disk. */
    method MergeOver(disk: File) returns (merged: File)
      ensures merged == Merge(disk, slots, {})
    {
      merged := disk + slots;
      var todo := slots.Keys;
      while todo != {}
        invariant todo <= slots.Keys
        invariant merged.Keys == disk.Keys + slots.Keys
        invariant forall k :: k in merged && k !in slots ==> merged[k] == disk[k]
        invariant forall k :: k in slots && k in todo ==> merged[k] == slots[k]
        invariant forall k :: k in slots && k !in todo ==> merged[k] == Inherit(slots[k], Get(disk, k))
      {
        var k :| k in todo;
        if merged[k].Framed? && LacksImage(merged[k]) && k in disk && Truthy(disk[k]) {
          var u := if disk[k].Bare? then Some(disk[k].url) else disk[k].u;
          merged := merged[k := merged[k].(u := u)];
        }
        todo := todo - {k};
      }
    }

    method OnRead(disk: File)
      modifies `slots, `tombstones, `phase
      ensures State() == Step(old(State()), ReadDone(Some(disk)))
    {
      var merged := MergeOver(disk);
      ghost var all := merged;
      var gone := tombstones;
      while gone != {}
        invariant gone <= tombstones
        invariant merged == all - (tombstones - gone)
      {
        var id :| id in gone;
        merged := merged - {id};
        gone := gone - {id};
      }
      assert merged == Merge(disk, slots, tombstones);
      slots := merged;
      tombstones := {};
      phase := Merged;
    }
  }
}
