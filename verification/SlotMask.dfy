/**
 The replacement mask of an image slot (design-reference/image-slot.js): the
 `data-swapping` attribute that hides a frame while its image is being replaced.

 `Mask` holds the fields of the element that decide the mask, together with what
 the browser still owes it: the encodes that are running and the load or error
 event of the image source assigned last (assigning a source drops the event of
 the earlier one). `img.complete` may report a stale answer while a load is due, so
 every step that reads it takes the answer as an argument; with no load due it is
 true.
 */
module SlotMask {
  import opened Text

  datatype Mask = Mask(
    gen: nat,
    swapGen: nat,
    loadPending: bool,
    swapping: bool,             // data-swapping
    filled: bool,               // data-filled
    hidShowing: bool,
    img: string,                // source of the frame image, "" for none
    encodes: map<nat, bool>,    // running encodes: did the slot show an image at the start?
    loadDue: bool,
    shows: string)              // image whose pixels are in the frame, "" for none

  datatype Element = Element(
    connected: bool,
    hasId: bool,
    unsplash: string -> bool,   // is the address on an Unsplash host?
    stored: string,             // image held for this slot by the store, "" for none
    src: string,
    credit: bool,
    mask: Mask)

  function Created(hasId: bool, unsplash: string -> bool): Element {
    Element(false, hasId, unsplash, "", "", false, Mask(0, 0, false, false, false, false, "", map[], false, ""))
  }

  /** No address is on an Unsplash host. */
  function NoHost(): string -> bool {
    _ => false
  }

  function Lower(c: char): char {
    if 'A' <= c <= 'Z' then 'a' + (c - 'A') else c
  }

  /** `/^data:image\//i` */
  predicate IsDataImage(u: string) {
    |u| >= 11 && forall i :: 0 <= i < 11 ==> Lower(u[i]) == "data:image/"[i]
  }

  function UserUrl(e: Element): string {
    if IsDataImage(e.stored) then e.stored else ""
  }

  predicate AttributionError(e: Element) {
    !e.credit && UserUrl(e) == "" && e.src != "" && e.unsplash(e.src)
  }

  /** The address `_render` shows, "" for none. */
  function Target(e: Element): string {
    if AttributionError(e) then "" else if UserUrl(e) != "" then UserUrl(e) else e.src
  }

  function ReleaseMask(m: Mask, settled: bool, complete: bool): Mask {
    if m.swapGen == 0 && !m.loadPending && (settled || complete) then m.(swapping := false) else m
  }

  /** The content part of `_render`, once the address to show is known. */
  function Paint(m: Mask, url: string, attrError: bool, complete: bool): Mask {
    if url == "" then
      m.(swapping := false, loadPending := false, hidShowing := attrError && m.img != "",
         img := "", filled := false, loadDue := false, shows := "")
    else if m.img != url then
      m.(swapping := m.swapping || m.img != "" || m.hidShowing, loadPending := true, img := url,
         loadDue := true, hidShowing := false, filled := true)
    else
      ReleaseMask(m, false, complete).(hidShowing := false, filled := true)
  }

  function Render(e: Element, complete: bool): Element {
    e.(mask := Paint(e.mask, Target(e), AttributionError(e), complete))
  }

  /** Subscribers of the store render only while connected; a slot without id renders itself. */
  function Notify(e: Element, complete: bool): Element {
    if e.connected || !e.hasId then Render(e, complete) else e
  }

  function Supersede(m: Mask): Mask {
    m.(gen := m.gen + 1, swapGen := 0)
  }

  function StartEncode(m: Mask): Mask {
    var gen := m.gen + 1;
    var m1 := m.(gen := gen, encodes := m.encodes[gen := m.filled]);
    if m.filled then m1.(swapping := true, swapGen := gen) else m1
  }

  function EndEncode(m: Mask, g: nat): Mask {
    var m1 := m.(encodes := m.encodes - {g});
    if g == m.gen then m1.(swapGen := 0) else m1
  }

  function Settle(m: Mask, shown: string): Mask {
    ReleaseMask(m.(loadDue := false, shows := shown, loadPending := false), true, true)
  }

  datatype Event =
    | Connect(complete: bool)
    | Disconnect
    | Rerender(complete: bool)
    | SetSrc(src: string, complete: bool)
    | SetCredit(credit: bool, complete: bool)
    | StoreWrite(url: string, complete: bool)      // a drop elsewhere, a clear, or hydration
    | Ingest(accepted: bool)
    | EncodeDone(g: nat, url: string, complete: bool)
    | EncodeFailed(g: nat, complete: bool)
    | Loaded
    | Errored

  predicate Enabled(e: Element, v: Event) {
    match v
    case Connect(complete) => !e.connected && (complete || e.mask.loadDue)
    case Disconnect => e.connected
    case Rerender(complete) => e.connected && (complete || e.mask.loadDue)
    case SetSrc(_, complete) => complete || e.mask.loadDue
    case SetCredit(_, complete) => complete || e.mask.loadDue
    case StoreWrite(_, complete) => e.hasId && (complete || e.mask.loadDue)
    case Ingest(_) => true
    case EncodeDone(g, _, complete) => g in e.mask.encodes && (complete || e.mask.loadDue)
    case EncodeFailed(g, complete) => g in e.mask.encodes && (complete || e.mask.loadDue)
    case Loaded => e.mask.loadDue
    case Errored => e.mask.loadDue
  }

  function Step(e: Element, v: Event): Element {
    match v
    case Connect(complete) => Render(e.(connected := true), complete)
    case Disconnect => e.(connected := false)
    case Rerender(complete) => Render(e, complete)
    case SetSrc(src, complete) =>
      Render(e.(src := src, mask := if src != e.src then Supersede(e.mask) else e.mask), complete)
    case SetCredit(credit, complete) => Render(e.(credit := credit), complete)
    case StoreWrite(url, complete) => Notify(e.(stored := url), complete)
    case Ingest(accepted) => if accepted then e.(mask := StartEncode(e.mask)) else e
    case EncodeDone(g, url, complete) =>
      var m := EndEncode(e.mask, g);
      if g != e.mask.gen then e.(mask := m) else Notify(e.(stored := url, mask := m), complete)
    case EncodeFailed(g, complete) =>
      var m := EndEncode(e.mask, g);
      e.(mask := if g != e.mask.gen then m else ReleaseMask(m, false, complete))
    case Loaded => e.(mask := Settle(e.mask, e.mask.img))
    case Errored => e.(mask := Settle(e.mask, ""))
  }

  // -------------------------------------------------------------- invariant

  /** An encode that began while an image was showing, and has not been superseded. */
  predicate ReplacingEncode(m: Mask) {
    m.gen in m.encodes && m.encodes[m.gen]
  }

  ghost predicate MaskInv(m: Mask) {
    && m.loadPending == m.loadDue
    && (m.swapGen != 0 ==> m.gen in m.encodes)
    && (ReplacingEncode(m) ==> m.swapGen == m.gen)
    && (forall g :: g in m.encodes ==> 1 <= g <= m.gen)
    && (m.loadDue ==> m.img != "")
    && (m.filled <==> m.img != "")
    && (m.swapping ==> m.filled)
    && (!m.loadDue ==> m.shows == m.img || m.shows == "")
    // pixels of an earlier image are never uncovered
    && (m.shows != "" && m.shows != m.img ==> m.swapping)
  }

  /** Something is still to come that will take the mask off. */
  predicate Justified(m: Mask) {
    m.swapping ==> (m.swapGen != 0 && m.gen in m.encodes) || m.loadDue
  }

  ghost predicate Inv(e: Element) {
    MaskInv(e.mask) && (e.connected || !e.hasId ==> Justified(e.mask))
  }

  lemma PaintKeeps(m: Mask, url: string, attrError: bool, complete: bool)
    requires MaskInv(m) && (complete || m.loadDue)
    ensures MaskInv(Paint(m, url, attrError, complete)) && Justified(Paint(m, url, attrError, complete))
  {
    var p := Paint(m, url, attrError, complete);
    assert p.gen == m.gen && p.swapGen == m.swapGen && p.encodes == m.encodes;
  }

  lemma SupersedeKeeps(m: Mask)
    requires MaskInv(m)
    ensures MaskInv(Supersede(m))
  {
    var p := Supersede(m);
    assert p.gen !in p.encodes;
  }

  lemma StartKeeps(m: Mask)
    requires MaskInv(m)
    ensures MaskInv(StartEncode(m)) && (Justified(m) ==> Justified(StartEncode(m)))
  {
    var p := StartEncode(m);
    assert p.gen in p.encodes && p.encodes[p.gen] == m.filled;
    assert m.gen in m.encodes ==> m.gen in p.encodes;
  }

  lemma EndKeeps(m: Mask, g: nat)
    requires MaskInv(m) && g in m.encodes
    ensures MaskInv(EndEncode(m, g))
    ensures g != m.gen && Justified(m) ==> Justified(EndEncode(m, g))
  {
    var p := EndEncode(m, g);
    assert p.gen in p.encodes <==> m.gen in m.encodes && g != m.gen;
  }

  lemma ReleaseKeeps(m: Mask, complete: bool)
    requires MaskInv(m) && (complete || m.loadDue)
    ensures MaskInv(ReleaseMask(m, false, complete)) && Justified(ReleaseMask(m, false, complete))
  {
  }

  lemma SettleKeeps(m: Mask, shown: string)
    requires MaskInv(m) && m.loadDue && (shown == m.img || shown == "")
    ensures MaskInv(Settle(m, shown)) && Justified(Settle(m, shown))
  {
    var p := Settle(m, shown);
    assert p.gen == m.gen && p.swapGen == m.swapGen && p.encodes == m.encodes && p.img == m.img;
  }

  lemma StepKeeps(e: Element, v: Event)
    requires Inv(e) && Enabled(e, v)
    ensures Inv(Step(e, v))
  {
    var m := e.mask;
    match v
    case Connect(complete) => RenderKeeps(e.(connected := true), complete);
    case Disconnect =>
    case Rerender(complete) => RenderKeeps(e, complete);
    case SetSrc(src, complete) =>
      SupersedeKeeps(m);
      RenderKeeps(e.(src := src, mask := if src != e.src then Supersede(m) else m), complete);
    case SetCredit(credit, complete) => RenderKeeps(e.(credit := credit), complete);
    case StoreWrite(url, complete) => RenderKeeps(e.(stored := url), complete);
    case Ingest(accepted) => StartKeeps(m);
    case EncodeDone(g, url, complete) =>
      EndKeeps(m, g);
      RenderKeeps(e.(stored := url, mask := EndEncode(m, g)), complete);
    case EncodeFailed(g, complete) =>
      EndKeeps(m, g);
      ReleaseKeeps(EndEncode(m, g), complete);
    case Loaded => SettleKeeps(m, m.img);
    case Errored => SettleKeeps(m, "");
  }

  lemma RenderKeeps(e: Element, complete: bool)
    requires MaskInv(e.mask) && (complete || e.mask.loadDue)
    ensures Inv(Render(e, complete))
  {
    PaintKeeps(e.mask, Target(e), AttributionError(e), complete);
  }

  // ------------------------------------------------------------------- runs

  ghost predicate Run(e: Element, vs: seq<Event>, e': Element)
    decreases |vs|
  {
    if vs == [] then e' == e
    else Enabled(e, vs[0]) && Run(Step(e, vs[0]), vs[1..], e')
  }

  lemma {:induction false} RunKeeps(e: Element, vs: seq<Event>, e': Element)
    requires Inv(e) && Run(e, vs, e')
    ensures Inv(e')
    decreases |vs|
  {
    if vs != [] {
      StepKeeps(e, vs[0]);
      RunKeeps(Step(e, vs[0]), vs[1..], e');
    }
  }

  ghost predicate Reachable(e: Element) {
    exists hasId, unsplash, vs :: Run(Created(hasId, unsplash), vs, e)
  }

  lemma NewIsReachable(hasId: bool, unsplash: string -> bool)
    ensures Reachable(Created(hasId, unsplash))
  {
    assert Run(Created(hasId, unsplash), [], Created(hasId, unsplash));
  }

  lemma {:induction false} RunMore(e: Element, vs: seq<Event>, e': Element, v: Event)
    requires Run(e, vs, e') && Enabled(e', v)
    ensures Run(e, vs + [v], Step(e', v))
    decreases |vs|
  {
    if vs == [] {
      assert [v][1..] == [];
    } else {
      RunMore(Step(e, vs[0]), vs[1..], e', v);
      assert (vs + [v])[1..] == vs[1..] + [v];
    }
  }

  lemma ReachableStep(e: Element, v: Event)
    requires Reachable(e) && Enabled(e, v)
    ensures Reachable(Step(e, v))
  {
    var hasId, unsplash, vs :| Run(Created(hasId, unsplash), vs, e);
    RunMore(Created(hasId, unsplash), vs, e, v);
  }

  lemma ReachableInv(e: Element)
    requires Reachable(e)
    ensures Inv(e)
  {
    var hasId, unsplash, vs :| Run(Created(hasId, unsplash), vs, e);
    RunKeeps(Created(hasId, unsplash), vs, e);
  }

  /**
   In every run from a new element, an image that is no longer the assigned one
   stays covered, and a mask that is on has an encode of the current generation
   or a load event still to come.
   */
  lemma MaskIsNeverStranded(e: Element)
    requires Reachable(e)
    ensures e.connected && e.mask.swapping ==> e.mask.gen in e.mask.encodes || e.mask.loadDue
    ensures e.mask.filled && e.mask.shows != "" && e.mask.shows != e.mask.img ==> e.mask.swapping
  {
    ReachableInv(e);
  }

  predicate Clear(m: Mask) {
    m.swapGen == 0 && !m.loadPending
  }

  /** A step that does not repaint the slot. */
  predicate Quiet(e: Element, v: Event) {
    match v
    case Disconnect | Ingest(_) | EncodeFailed(_, _) | Loaded | Errored => true
    case StoreWrite(_, _) => !e.connected && e.hasId
    case EncodeDone(g, _, _) => g != e.mask.gen || (!e.connected && e.hasId)
    case _ => false
  }

  /** The image stays, and the mask comes off only when nothing holds it. */
  predicate Uncovers(m: Mask, m': Mask) {
    m'.img == m.img && (m.swapping ==> m'.swapping || Clear(m'))
  }

  lemma EncodesUncover(m: Mask, g: nat, complete: bool)
    ensures Uncovers(m, StartEncode(m)) && Uncovers(m, EndEncode(m, g))
    ensures Uncovers(m, ReleaseMask(EndEncode(m, g), false, complete))
  {
  }

  lemma SettleUncovers(m: Mask, shown: string)
    ensures Uncovers(m, Settle(m, shown))
  {
  }

  lemma QuietStep(e: Element, v: Event)
    requires Quiet(e, v)
    ensures Uncovers(e.mask, Step(e, v).mask)
  {
    match v
    case Ingest(_) => EncodesUncover(e.mask, 0, true);
    case EncodeDone(g, _, complete) => EncodesUncover(e.mask, g, complete);
    case EncodeFailed(g, complete) => EncodesUncover(e.mask, g, complete);
    case Loaded => SettleUncovers(e.mask, e.mask.img);
    case Errored => SettleUncovers(e.mask, "");
    case _ =>
  }

  /** Any other step repaints, from the same image and mask. */
  lemma RepaintStep(e: Element, v: Event) returns (m: Mask, url: string, err: bool, complete: bool)
    requires !Quiet(e, v)
    ensures m.img == e.mask.img && m.swapping == e.mask.swapping && m.hidShowing == e.mask.hidShowing
    ensures Step(e, v).mask == Paint(m, url, err, complete)
  {
    m := e.mask;
    var e1 := e;
    match v {
      case Connect(c) => complete, e1 := c, e.(connected := true);
      case Rerender(c) => complete := c;
      case SetSrc(src, c) =>
        m := if src != e.src then Supersede(m) else m;
        complete, e1 := c, e.(src := src, mask := m);
      case SetCredit(credit, c) => complete, e1 := c, e.(credit := credit);
      case StoreWrite(u, c) => complete, e1 := c, e.(stored := u);
      case EncodeDone(g, u, c) =>
        m := EndEncode(m, g);
        complete, e1 := c, e.(stored := u, mask := m);
    }
    url, err := Target(e1), AttributionError(e1);
  }

  /**
   The mask is taken off only when the slot becomes empty, or when no load is due
   and no encode of a replacement is running.
   */
  lemma MaskComesOffOnlyWhenSettled(e: Element, v: Event)
    requires Reachable(e) && Enabled(e, v)
    requires e.mask.swapping && !Step(e, v).mask.swapping
    ensures var m := Step(e, v).mask; !m.filled || (!m.loadDue && !ReplacingEncode(m))
  {
    ReachableInv(e);
    StepKeeps(e, v);
    if Quiet(e, v) {
      QuietStep(e, v);
    } else {
      var m, url, err, complete := RepaintStep(e, v);
      PaintUncovers(m, url, err, complete);
    }
    if Clear(Step(e, v).mask) {
      ClearMeansSettled(Step(e, v).mask);
    }
  }

  lemma ClearMeansSettled(m: Mask)
    requires MaskInv(m) && Clear(m)
    ensures !m.loadDue && !ReplacingEncode(m)
  {
  }

  lemma PaintUncovers(m: Mask, url: string, err: bool, complete: bool)
    requires m.swapping
    ensures var p := Paint(m, url, err, complete);
            !p.swapping ==> !p.filled || Clear(p)
  {
  }

  /**
   Once the due load has come, a mask that was on stays exactly while an encode claims
   it, and that encode is running.
   */
  lemma LoadReleases(e: Element, v: Event)
    requires Reachable(e) && (v.Loaded? || v.Errored?) && Enabled(e, v)
    ensures var m := Step(e, v).mask;
            && !m.loadDue && m.shows == (if v.Loaded? then e.mask.img else "")
            && (m.swapping <==> e.mask.swapping && e.mask.swapGen != 0)
            && (m.swapping ==> m.gen in m.encodes)
  {
    ReachableInv(e);
    SettleKeeps(e.mask, if v.Loaded? then e.mask.img else "");
  }

  /**
   When the current encode of a connected slot ends, the mask is off or a load is due,
   and a success leaves the new image assigned. The end of an earlier one changes nothing
   but its own record.
   */
  lemma EncodeReleases(e: Element, g: nat, url: string, complete: bool)
    requires Reachable(e) && e.connected && g in e.mask.encodes
    requires complete || e.mask.loadDue
    ensures var f, d := Step(e, EncodeFailed(g, complete)), Step(e, EncodeDone(g, url, complete));
            if g == e.mask.gen then
              && f.mask.img == e.mask.img && f.mask.swapGen == 0 && (f.mask.swapping ==> f.mask.loadDue)
              && d.mask.swapGen == 0 && (d.mask.swapping ==> d.mask.loadDue)
              && (IsDataImage(url) ==> d.mask.img == url && d.mask.filled)
            else
              f == d == e.(mask := e.mask.(encodes := e.mask.encodes - {g}))
  {
    ReachableInv(e);
    if g == e.mask.gen {
      EncodeFails(e, complete);
      EncodeSucceeds(e, url, complete);
    }
  }

  lemma EncodeFails(e: Element, complete: bool)
    requires MaskInv(e.mask) && e.mask.gen in e.mask.encodes && (complete || e.mask.loadDue)
    ensures var f := Step(e, EncodeFailed(e.mask.gen, complete)).mask;
            f.img == e.mask.img && f.swapGen == 0 && (f.swapping ==> f.loadDue)
  {
    EndKeeps(e.mask, e.mask.gen);
    ReleaseKeeps(EndEncode(e.mask, e.mask.gen), complete);
  }

  lemma EncodeSucceeds(e: Element, url: string, complete: bool)
    requires MaskInv(e.mask) && e.connected && e.mask.gen in e.mask.encodes && (complete || e.mask.loadDue)
    ensures var d := Step(e, EncodeDone(e.mask.gen, url, complete)).mask;
            && d.swapGen == 0 && (d.swapping ==> d.loadDue)
            && (IsDataImage(url) ==> d.img == url && d.filled)
  {
    var m := EndEncode(e.mask, e.mask.gen);
    EndKeeps(e.mask, e.mask.gen);
    var e1 := e.(stored := url, mask := m);
    PaintKeeps(m, Target(e1), AttributionError(e1), complete);
  }

  /** Replacing a shown image by another address covers it in the same step. */
  lemma ReplacementIsCovered(e: Element, v: Event)
    requires Enabled(e, v)
    requires e.mask.img != "" && Step(e, v).mask.img != "" && Step(e, v).mask.img != e.mask.img
    ensures Step(e, v).mask.swapping && Step(e, v).mask.loadDue
  {
    if Quiet(e, v) {
      QuietStep(e, v);
    } else {
      var m, url, err, complete := RepaintStep(e, v);
    }
  }

  /**
   An encode begun on an empty slot does not hold the mask: here the mask comes off
   while the encode of the current generation is still running.
   */
  lemma MaskOffDuringFirstEncode(a: string, b: string)
    requires IsDataImage(a) && IsDataImage(b) && a != b
    ensures exists e ::
              && Reachable(e) && Enabled(e, Loaded) && e.mask.swapping
              && var m := Step(e, Loaded).mask; !m.swapping && m.filled && m.gen in m.encodes
  {
    var e0 := Created(true, NoHost());
    var e1 := Step(e0, Connect(true));
    var e2 := Step(e1, Ingest(true));
    var e3 := Step(e2, StoreWrite(a, true));
    var e4 := Step(e3, Loaded);
    var e5 := Step(e4, StoreWrite(b, true));
    NewIsReachable(true, NoHost());
    ReachableStep(e0, Connect(true));
    ReachableStep(e1, Ingest(true));
    ReachableStep(e2, StoreWrite(a, true));
    ReachableStep(e3, Loaded);
    ReachableStep(e4, StoreWrite(b, true));
    assert e5.mask.swapping && e5.mask.gen in e5.mask.encodes && e5.mask.swapGen == 0;
    var m := Step(e5, Loaded).mask;
    assert Enabled(e5, Loaded) && !m.swapping && m.filled && m.gen in m.encodes;
  }

  // ------------------------------------------------------------ what is shown

  /** `c` is the letter `small`, small or capital. */
  predicate SpellsLetter(c: char, small: char) {
    c == small || ('a' <= small <= 'z' && c as int + 32 == small as int)
  }

  /** An address that begins with `data:image/`, in letters of either case. */
  predicate IsUserImage(u: string) {
    |u| >= 11 && forall i :: 0 <= i < 11 ==> SpellsLetter(u[i], "data:image/"[i])
  }

  /**
   The image in the frame: the one in the store, when it is a data image; else the `src`,
   unless it is an Unsplash photo without its credit.
   */
  predicate ShowsRight(e: Element) {
    && e.mask.img == (if IsUserImage(e.stored) then e.stored
                      else if !e.credit && e.src != "" && e.unsplash(e.src) then "" else e.src)
    && e.mask.filled == (e.mask.img != "")
  }

  lemma UserImages(u: string)
    ensures IsDataImage(u) <==> IsUserImage(u)
  {
  }

  lemma PaintShows(m: Mask, url: string, err: bool, complete: bool)
    ensures Paint(m, url, err, complete).img == url && Paint(m, url, err, complete).filled == (url != "")
  {
  }

  lemma RenderShows(e: Element, complete: bool)
    ensures ShowsRight(Render(e, complete))
  {
    UserImages(e.stored);
    PaintShows(e.mask, Target(e), AttributionError(e), complete);
  }

  /** An element that renders shows what it should. */
  predicate ShowsWhenRendered(e: Element) {
    e.connected || !e.hasId ==> ShowsRight(e)
  }

  lemma NotifyShows(e: Element, complete: bool)
    ensures ShowsWhenRendered(Notify(e, complete))
  {
    RenderShows(e, complete);
  }

  lemma SameImageShows(e: Element, m: Mask)
    requires ShowsWhenRendered(e) && m.img == e.mask.img && m.filled == e.mask.filled
    ensures ShowsWhenRendered(e.(mask := m))
  {
  }

  lemma EncodeShows(e: Element, v: Event)
    requires Enabled(e, v) && (v.EncodeDone? || v.EncodeFailed?) && ShowsWhenRendered(e)
    ensures ShowsWhenRendered(Step(e, v))
  {
    SameImageShows(e, EndEncode(e.mask, v.g));
    if v.EncodeDone? {
      NotifyShows(e.(stored := v.url, mask := EndEncode(e.mask, v.g)), v.complete);
    } else {
      SameImageShows(e, ReleaseMask(EndEncode(e.mask, v.g), false, v.complete));
    }
  }

  lemma StepShows(e: Element, v: Event)
    requires Enabled(e, v) && ShowsWhenRendered(e)
    ensures ShowsWhenRendered(Step(e, v))
  {
    match v
    case Connect(c) => RenderShows(e.(connected := true), c);
    case Disconnect =>
    case Rerender(c) => RenderShows(e, c);
    case SetSrc(src, c) =>
      RenderShows(e.(src := src, mask := if src != e.src then Supersede(e.mask) else e.mask), c);
    case SetCredit(credit, c) => RenderShows(e.(credit := credit), c);
    case StoreWrite(url, c) => NotifyShows(e.(stored := url), c);
    case Ingest(_) => SameImageShows(e, StartEncode(e.mask));
    case EncodeDone(_, _, _) => EncodeShows(e, v);
    case EncodeFailed(_, _) => EncodeShows(e, v);
    case Loaded => SameImageShows(e, Settle(e.mask, e.mask.img));
    case Errored => SameImageShows(e, Settle(e.mask, ""));
  }

  lemma {:induction false} RunShows(e: Element, vs: seq<Event>, e': Element)
    requires Run(e, vs, e') && ShowsWhenRendered(e)
    ensures ShowsWhenRendered(e')
    decreases |vs|
  {
    if vs != [] {
      StepShows(e, vs[0]);
      RunShows(Step(e, vs[0]), vs[1..], e');
    }
  }

  /**
   In every run, a connected slot shows exactly what it should: in particular, without an
   image of the user's it is empty exactly when it has no `src`, or one that is an
   Unsplash photo without its credit.
   */
  lemma ShowsExactly(e: Element)
    requires Reachable(e) && (e.connected || !e.hasId)
    ensures ShowsRight(e)
    ensures !IsUserImage(e.stored) ==> (!e.mask.filled <==> e.src == "" || (!e.credit && e.unsplash(e.src)))
  {
    var hasId, unsplash, vs :| Run(Created(hasId, unsplash), vs, e);
    RunShows(Created(hasId, unsplash), vs, e);
  }

  // ------------------------------------------------- when the mask comes off

  /** The state after the events `vs`. */
  function Exec(e: Element, vs: seq<Event>): Element {
    if vs == [] then e else Step(Exec(e, vs[..|vs| - 1]), vs[|vs| - 1])
  }

  lemma {:induction false} ExecFront(e: Element, vs: seq<Event>)
    requires vs != []
    ensures Exec(e, vs) == Exec(Step(e, vs[0]), vs[1..])
    decreases |vs|
  {
    if |vs| == 1 {
      assert vs[..0] == [] && vs[1..] == [];
    } else {
      ExecFront(e, vs[..|vs| - 1]);
      assert vs[1..][..|vs| - 2] == vs[..|vs| - 1][1..];
    }
  }

  lemma {:induction false} RunIsExec(e: Element, vs: seq<Event>, e': Element)
    requires Run(e, vs, e')
    ensures e' == Exec(e, vs)
    decreases |vs|
  {
    if vs != [] {
      RunIsExec(Step(e, vs[0]), vs[1..], e');
      ExecFront(e, vs);
    }
  }

  /** An encode is begun on a filled slot. */
  predicate Claims(e: Element, v: Event) {
    v == Ingest(true) && e.mask.filled
  }

  /** The address changes, or the encode of the current generation ends. */
  predicate Drops(e: Element, v: Event) {
    match v
    case SetSrc(src, _) => src != e.src
    case EncodeDone(g, _, _) => g == e.mask.gen
    case EncodeFailed(g, _) => g == e.mask.gen
    case _ => false
  }

  /** Event `i` claims the mask. */
  predicate ClaimsAt(e: Element, vs: seq<Event>, i: nat)
    requires i < |vs|
  {
    Claims(Exec(e, vs[..i]), vs[i])
  }

  predicate DropsAt(e: Element, vs: seq<Event>, i: nat)
    requires i < |vs|
  {
    Drops(Exec(e, vs[..i]), vs[i])
  }

  /** Some event claimed the mask, and none has dropped the claim since. */
  predicate Claimed(e: Element, vs: seq<Event>) {
    exists i :: 0 <= i < |vs| && ClaimsAt(e, vs, i) && forall j :: i < j < |vs| ==> !DropsAt(e, vs, j)
  }

  lemma PaintSwapGen(e: Element, complete: bool)
    ensures Render(e, complete).mask.swapGen == e.mask.swapGen
    ensures Notify(e, complete).mask.swapGen == e.mask.swapGen
  {
  }

  /** `Drops` and `Claims` say how an event changes the encode marker. */
  predicate SwapGenFollows(e: Element, v: Event, swapGen: nat) {
    if Claims(e, v) then swapGen != 0 else if Drops(e, v) then swapGen == 0 else swapGen == e.mask.swapGen
  }

  lemma SetSrcSwapGen(e: Element, src: string, complete: bool)
    ensures SwapGenFollows(e, SetSrc(src, complete), Step(e, SetSrc(src, complete)).mask.swapGen)
  {
    PaintSwapGen(e.(src := src, mask := if src != e.src then Supersede(e.mask) else e.mask), complete);
  }

  lemma EncodeSwapGen(e: Element, g: nat, url: string, complete: bool)
    ensures SwapGenFollows(e, EncodeDone(g, url, complete), Step(e, EncodeDone(g, url, complete)).mask.swapGen)
    ensures SwapGenFollows(e, EncodeFailed(g, complete), Step(e, EncodeFailed(g, complete)).mask.swapGen)
  {
    PaintSwapGen(e.(stored := url, mask := EndEncode(e.mask, g)), complete);
  }

  lemma IngestSwapGen(e: Element, accepted: bool)
    ensures SwapGenFollows(e, Ingest(accepted), Step(e, Ingest(accepted)).mask.swapGen)
  {
  }

  lemma StepSwapGen(e: Element, v: Event)
    ensures SwapGenFollows(e, v, Step(e, v).mask.swapGen)
  {
    match v
    case Connect(c) => PaintSwapGen(e.(connected := true), c);
    case Rerender(c) => PaintSwapGen(e, c);
    case SetSrc(src, c) => SetSrcSwapGen(e, src, c);
    case SetCredit(credit, c) => PaintSwapGen(e.(credit := credit), c);
    case StoreWrite(url, c) => PaintSwapGen(e.(stored := url), c);
    case Ingest(accepted) => IngestSwapGen(e, accepted);
    case EncodeDone(g, url, c) => EncodeSwapGen(e, g, url, c);
    case EncodeFailed(g, c) => EncodeSwapGen(e, g, "", c);
    case _ =>
  }

  lemma SwapGenStep(e: Element, v: Event)
    ensures Step(e, v).mask.swapGen != 0 <==> Claims(e, v) || (e.mask.swapGen != 0 && !Drops(e, v))
  {
    StepSwapGen(e, v);
  }

  lemma ClaimedStep(e: Element, vs: seq<Event>, v: Event)
    ensures Claimed(e, vs + [v]) <==> Claims(Exec(e, vs), v) || (Claimed(e, vs) && !Drops(Exec(e, vs), v))
  {
    var ws := vs + [v];
    assert ws[..|vs|] == vs;
    forall i: nat | i < |vs|
      ensures ClaimsAt(e, ws, i) == ClaimsAt(e, vs, i) && DropsAt(e, ws, i) == DropsAt(e, vs, i)
    {
      assert ws[..i] == vs[..i];
    }
    assert ClaimsAt(e, ws, |vs|) == Claims(Exec(e, vs), v);
    assert DropsAt(e, ws, |vs|) == Drops(Exec(e, vs), v);
  }

  /** The encode marker is set exactly while a claim stands. */
  lemma {:induction false} SwapGenHistory(e: Element, vs: seq<Event>)
    requires e.mask.swapGen == 0
    ensures Exec(e, vs).mask.swapGen != 0 <==> Claimed(e, vs)
    decreases |vs|
  {
    if vs != [] {
      var front, v := vs[..|vs| - 1], vs[|vs| - 1];
      assert vs == front + [v];
      SwapGenHistory(e, front);
      SwapGenMore(e, front, v);
    }
  }

  lemma SwapGenMore(e: Element, vs: seq<Event>, v: Event)
    requires Exec(e, vs).mask.swapGen != 0 <==> Claimed(e, vs)
    ensures Exec(e, vs + [v]).mask.swapGen != 0 <==> Claimed(e, vs + [v])
  {
    ClaimedStep(e, vs, v);
    SwapGenStep(Exec(e, vs), v);
    assert (vs + [v])[..|vs|] == vs;
  }

  /**
   On a slot that renders, a mask that was on is off after a step exactly when the slot
   is empty, or no load is due and no claim stands: an encode begun on an empty slot
   claims nothing, and a claim outlives a newer encode.
   */
  lemma MaskComesOffExactly(hasId: bool, unsplash: string -> bool, vs: seq<Event>, e: Element, v: Event)
    requires Run(Created(hasId, unsplash), vs, e) && Enabled(e, v) && e.mask.swapping
    requires Step(e, v).connected || !Step(e, v).hasId
    ensures var m := Step(e, v).mask;
            !m.swapping <==> !m.filled || (!m.loadDue && !Claimed(Created(hasId, unsplash), vs + [v]))
  {
    var e0 := Created(hasId, unsplash);
    RunKeeps(e0, vs, e);
    StepKeeps(e, v);
    RunIsExec(e0, vs, e);
    assert (vs + [v])[..|vs|] == vs;
    SwapGenHistory(e0, vs + [v]);
    if Quiet(e, v) {
      QuietStep(e, v);
    } else {
      var m, url, err, complete := RepaintStep(e, v);
      PaintUncovers(m, url, err, complete);
    }
  }

  // ------------------------------------------- what fills an emptied slot

  /** An Unsplash photo without its credit, and no image of the user's instead. */
  predicate Uncredited(e: Element) {
    !IsUserImage(e.stored) && !e.credit && e.src != "" && e.unsplash(e.src)
  }

  /** The image in the frame is taken away, for want of a credit. */
  predicate Wipes(e: Element, v: Event) {
    !Quiet(e, v) && e.mask.img != "" && Step(e, v).mask.img == "" && Uncredited(Step(e, v))
  }

  predicate WipesAt(e: Element, vs: seq<Event>, i: nat)
    requires i < |vs|
  {
    Wipes(Exec(e, vs[..i]), vs[i])
  }

  predicate QuietAt(e: Element, vs: seq<Event>, i: nat)
    requires i < |vs|
  {
    Quiet(Exec(e, vs[..i]), vs[i])
  }

  /** Some event took the image away, for want of a credit, and none has rendered since. */
  predicate Wiped(e: Element, vs: seq<Event>) {
    exists i :: 0 <= i < |vs| && WipesAt(e, vs, i) && forall j :: i < j < |vs| ==> QuietAt(e, vs, j)
  }

  lemma RenderHides(e: Element, complete: bool)
    ensures var r := Render(e, complete);
            r.mask.hidShowing <==> e.mask.img != "" && r.mask.img == "" && Uncredited(r)
  {
    UserImages(e.stored);
  }

  lemma MasksKeepHidden(m: Mask, g: nat, shown: string, complete: bool)
    ensures StartEncode(m).hidShowing == EndEncode(m, g).hidShowing == m.hidShowing
    ensures ReleaseMask(EndEncode(m, g), false, complete).hidShowing == Settle(m, shown).hidShowing == m.hidShowing
  {
  }

  lemma QuietHides(e: Element, v: Event)
    requires Quiet(e, v)
    ensures Step(e, v).mask.hidShowing == e.mask.hidShowing
  {
    match v
    case Ingest(_) => MasksKeepHidden(e.mask, 0, "", true);
    case EncodeDone(g, _, complete) => MasksKeepHidden(e.mask, g, "", complete);
    case EncodeFailed(g, complete) => MasksKeepHidden(e.mask, g, "", complete);
    case Loaded => MasksKeepHidden(e.mask, 0, e.mask.img, true);
    case Errored => MasksKeepHidden(e.mask, 0, "", true);
    case _ =>
  }

  lemma StepHides(e: Element, v: Event)
    ensures Step(e, v).mask.hidShowing <==> Wipes(e, v) || (e.mask.hidShowing && Quiet(e, v))
  {
    if Quiet(e, v) {
      QuietHides(e, v);
    } else {
      match v
      case Connect(c) => RenderHides(e.(connected := true), c);
      case Rerender(c) => RenderHides(e, c);
      case SetSrc(src, c) =>
        RenderHides(e.(src := src, mask := if src != e.src then Supersede(e.mask) else e.mask), c);
      case SetCredit(credit, c) => RenderHides(e.(credit := credit), c);
      case StoreWrite(url, c) => RenderHides(e.(stored := url), c);
      case EncodeDone(g, url, c) => RenderHides(e.(stored := url, mask := EndEncode(e.mask, g)), c);
    }
  }

  lemma WipedStep(e: Element, vs: seq<Event>, v: Event)
    ensures Wiped(e, vs + [v]) <==> Wipes(Exec(e, vs), v) || (Wiped(e, vs) && Quiet(Exec(e, vs), v))
  {
    var ws := vs + [v];
    assert ws[..|vs|] == vs;
    forall i: nat | i < |vs|
      ensures WipesAt(e, ws, i) == WipesAt(e, vs, i) && QuietAt(e, ws, i) == QuietAt(e, vs, i)
    {
      assert ws[..i] == vs[..i];
    }
    assert WipesAt(e, ws, |vs|) == Wipes(Exec(e, vs), v);
    assert QuietAt(e, ws, |vs|) == Quiet(Exec(e, vs), v);
  }

  lemma {:induction false} HidHistory(e: Element, vs: seq<Event>)
    requires !e.mask.hidShowing
    ensures Exec(e, vs).mask.hidShowing <==> Wiped(e, vs)
    decreases |vs|
  {
    if vs != [] {
      var front, v := vs[..|vs| - 1], vs[|vs| - 1];
      HidHistory(e, front);
      WipedStep(e, front, v);
      StepHides(Exec(e, front), v);
      assert front + [v] == vs;
    }
  }

  /**
   Filling an empty slot covers it exactly when the last rendering took its image away for
   want of a credit, as when an Unsplash photo is picked and its address is set before its
   credit; otherwise the new image is a first one, and shows as it loads.
   */
  lemma FillIsCoveredExactly(hasId: bool, unsplash: string -> bool, vs: seq<Event>, e: Element, v: Event)
    requires Run(Created(hasId, unsplash), vs, e) && Enabled(e, v)
    requires e.mask.img == "" && Step(e, v).mask.img != ""
    ensures Step(e, v).mask.loadDue
    ensures Step(e, v).mask.swapping <==> Wiped(Created(hasId, unsplash), vs)
  {
    var e0 := Created(hasId, unsplash);
    RunKeeps(e0, vs, e);
    RunIsExec(e0, vs, e);
    HidHistory(e0, vs);
    if Quiet(e, v) {
      QuietStep(e, v);
    } else {
      var m, url, err, complete := RepaintStep(e, v);
    }
  }

  /** An element that shows `a`, loaded. */
  function Showing(a: string): Element {
    Element(true, true, NoHost(), a, "", false, Mask(0, 0, false, false, true, false, a, map[], false, a))
  }

  lemma ShowingIsReachable(a: string)
    requires IsDataImage(a)
    ensures Reachable(Showing(a))
  {
    var e0 := Created(true, NoHost());
    NewIsReachable(true, NoHost());
    ReachableStep(e0, Connect(true));
    var e1 := e0.(connected := true);
    assert Step(e0, Connect(true)) == e1;
    ReachableStep(e1, StoreWrite(a, true));
    var e2 := e1.(stored := a, mask := Mask(0, 0, true, false, true, false, a, map[], true, ""));
    assert Step(e1, StoreWrite(a, true)) == e2;
    ReachableStep(e2, Loaded);
    assert Step(e2, Loaded) == Showing(a);
  }

  /** The same element, emptied during an encode, with another one begun since. */
  function Emptied(a: string): Element {
    var encodes := map[1 := true, 2 := false];
    Showing(a).(stored := "", mask := Mask(2, 1, false, false, false, false, "", encodes, false, ""))
  }

  /** A replacement is begun, the slot emptied, and a new encode begun on it. */
  lemma BegunTwice(e: Element, a: string)
    requires Reachable(e) && e == Showing(a)
    ensures Reachable(Emptied(a))
  {
    ReachableStep(e, Ingest(true));
    var e1 := e.(mask := Mask(1, 1, false, true, true, false, a, map[1 := true], false, a));
    assert Step(e, Ingest(true)) == e1;
    ReachableStep(e1, StoreWrite("", true));
    var e2 := e1.(stored := "", mask := Mask(1, 1, false, false, false, false, "", map[1 := true], false, ""));
    assert Step(e1, StoreWrite("", true)) == e2;
    ReachableStep(e2, Ingest(true));
    assert Step(e2, Ingest(true)) == Emptied(a);
  }

  lemma StoreTwice(e: Element, a: string, b: string)
    requires Reachable(e) && IsDataImage(a) && IsDataImage(b) && a != b && e.connected && e.hasId
    requires e.mask.swapGen != 0 && e.mask.img == ""
    requires e.mask.gen in e.mask.encodes && !ReplacingEncode(e.mask)
    ensures var e' := Step(Step(e, StoreWrite(a, true)), StoreWrite(b, true));
            && Reachable(e') && Enabled(e', Loaded) && Step(e', Loaded).mask.swapping
            && e'.mask.gen in e'.mask.encodes && !ReplacingEncode(e'.mask)
  {
    ReachableStep(e, StoreWrite(a, true));
    ReachableStep(Step(e, StoreWrite(a, true)), StoreWrite(b, true));
  }

  /** Two encodes, the second begun on the emptied slot: the first one's claim still holds the mask. */
  lemma ClaimOutlivesItsEncode(a: string, b: string)
    requires IsDataImage(a) && IsDataImage(b) && a != b
    ensures exists e ::
              && Reachable(e) && Enabled(e, Loaded) && !ReplacingEncode(e.mask)
              && e.mask.gen in e.mask.encodes && Step(e, Loaded).mask.swapping
  {
    var e := Showing(a);
    ShowingIsReachable(a);
    BegunTwice(e, a);
    StoreTwice(Emptied(a), a, b);
  }

  // ------------------------------------------------------------ the element

  /** The custom element, as its methods and callbacks update it. */
  class ImageSlot {
    const hasId: bool
    const unsplashHost: string -> bool
    var connected: bool
    var stored: string
    var src: string
    var credit: bool
    var gen: nat
    var swapGen: nat
    var loadPending: bool
    var swapping: bool
    var filled: bool
    var hidShowing: bool
    var img: string
    ghost var encodes: map<nat, bool>
    ghost var loadDue: bool
    ghost var shows: string

    constructor (hasId: bool, unsplashHost: string -> bool)
      ensures State() == Created(hasId, unsplashHost)
    {
      this.hasId, this.unsplashHost := hasId, unsplashHost;
      connected, stored, src, credit := false, "", "", false;
      gen, swapGen, loadPending, swapping, filled, hidShowing, img := 0, 0, false, false, false, false, "";
      encodes, loadDue, shows := map[], false, "";
    }

    ghost function MaskState(): Mask
      reads this
    {
      Mask(gen, swapGen, loadPending, swapping, filled, hidShowing, img, encodes, loadDue, shows)
    }

    ghost function State(): Element
      reads this
    {
      Element(connected, hasId, unsplashHost, stored, src, credit, MaskState())
    }

    method Release(settled: bool, complete: bool)
      modifies `swapping
      ensures MaskState() == ReleaseMask(old(MaskState()), settled, complete)
    {
      if swapGen == 0 && !loadPending && (settled || complete) {
        swapping := false;
      }
    }

    method RenderContent(complete: bool)
      modifies this
      ensures State() == Render(old(State()), complete)
    {
      var userUrl := if IsDataImage(stored) then stored else "";
      var url := if userUrl != "" then userUrl else src;
      var attrError := !credit && userUrl == "" && src != "" && unsplashHost(src);
      if url != "" && !attrError {
        Show(url, complete);
      } else {
        Hide(attrError);
      }
    }

    method Show(url: string, complete: bool)
      requires url != ""
      modifies `swapping, `loadPending, `img, `loadDue, `hidShowing, `filled
      ensures MaskState() == Paint(old(MaskState()), url, false, complete)
    {
      var prev := img;
      if prev != url {
        if prev != "" || hidShowing {
          swapping := true;
        }
        loadPending := true;
        img := url;
        loadDue := true;
      } else {
        Release(false, complete);
      }
      hidShowing := false;
      filled := true;
    }

    method Hide(attrError: bool)
      modifies `swapping, `loadPending, `img, `loadDue, `hidShowing, `filled, `shows
      ensures forall c :: MaskState() == Paint(old(MaskState()), "", attrError, c)
    {
      swapping := false;
      loadPending := false;
      hidShowing := attrError && img != "";
      img := "";
      loadDue := false;
      shows := "";
      filled := false;
    }

    method ConnectedCallback(complete: bool)
      modifies this
      ensures State() == Step(old(State()), Connect(complete))
    {
      connected := true;
      RenderContent(complete);
    }

    method SrcChanged(newVal: string, complete: bool)
      modifies this
      ensures State() == Step(old(State()), SetSrc(newVal, complete))
    {
      ghost var e := State();
      if src != newVal {
        gen := gen + 1;
        swapGen := 0;
      }
      src := newVal;
      assert MaskState() == if newVal != e.src then Supersede(e.mask) else e.mask;
      RenderContent(complete);
    }

    method StartIngest(accepted: bool)
      modifies this
      ensures State() == Step(old(State()), Ingest(accepted))
    {
      if !accepted {
        return;
      }
      gen := gen + 1;
      encodes := encodes[gen := filled];
      if filled {
        swapping := true;
        swapGen := gen;
      }
    }

    method FinishIngest(g: nat, url: string, complete: bool)
      modifies this
      ensures State() == Step(old(State()), EncodeDone(g, url, complete))
    {
      encodes := encodes - {g};
      if g != gen {
        return;
      }
      swapGen := 0;
      stored := url;
      if connected || !hasId {
        RenderContent(complete);
      }
    }

    method FailIngest(g: nat, complete: bool)
      modifies this
      ensures State() == Step(old(State()), EncodeFailed(g, complete))
    {
      encodes := encodes - {g};
      if g != gen {
        return;
      }
      swapGen := 0;
      Release(false, complete);
    }

    method OnLoad()
      modifies this
      ensures State() == Step(old(State()), Loaded)
    {
      loadDue := false;
      shows := img;
      loadPending := false;
      Release(true, true);
    }

    method OnError()
      modifies this
      ensures State() == Step(old(State()), Errored)
    {
      loadDue := false;
      shows := "";
      loadPending := false;
      Release(true, true);
    }
  }
}
