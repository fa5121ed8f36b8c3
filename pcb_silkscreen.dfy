/** The silkscreen tools' decisions before and inside their pcbnew scripts: which
    statements `update_silkscreen_item` writes for the changes asked of it, and which
    silkscreen texts `check_silkscreen_overlaps` reports as lying over another
    component's pads. Lengths and angles are integers here (the tools take millimetres
    and degrees as floats); the board itself is given as records. */
module PcbSilkscreen {
  import opened Wrappers

  // ---------------------------------------------------------------------
  // update_silkscreen_item: the modification statements
  // ---------------------------------------------------------------------

  /** One statement of the generated script, applied to the chosen text. `SetX` and
      `SetY` set one coordinate and keep the other from the text's current position. */
  datatype Mod =
    | SetVisible(visible: bool)
    | SetPosition(x: int, y: int)
    | SetX(x: int)
    | SetY(y: int)
    | SetRelative(dx: int, dy: int)
    | SetSize(size: int)
    | SetThickness(thickness: int)
    | SetAngle(angle: int)
    | SetLayer(layer: string)

  /** The changes a call asks for; `None` keeps the current value. */
  datatype Changes = Changes(visible: Option<bool>, x: Option<int>, y: Option<int>,
                             relX: Option<int>, relY: Option<int>, size: Option<int>,
                             thickness: Option<int>, angle: Option<int>, layer: Option<string>)

  /** Where a statement stands in the script: visibility, position, relative position,
      size, thickness, angle, layer. */
  function Rank(m: Mod): nat {
    match m
      case SetVisible(_) => 0
      case SetPosition(_, _) => 1
      case SetX(_) => 1
      case SetY(_) => 1
      case SetRelative(_, _) => 2
      case SetSize(_) => 3
      case SetThickness(_) => 4
      case SetAngle(_) => 5
      case SetLayer(_) => 6
  }

  /** The statement for the absolute position, if any. */
  function PositionSlot(c: Changes): Option<Mod> {
    if c.x.Some? && c.y.Some? then Some(SetPosition(c.x.value, c.y.value))
    else if c.x.Some? then Some(SetX(c.x.value))
    else if c.y.Some? then Some(SetY(c.y.value))
    else None
  }

  /** For each kind of statement in script order, the one asked for, if any. */
  function Slots(c: Changes): seq<Option<Mod>> {
    [ if c.visible.Some? then Some(SetVisible(c.visible.value)) else None,
      PositionSlot(c),
      if c.relX.Some? && c.relY.Some? then Some(SetRelative(c.relX.value, c.relY.value)) else None,
      if c.size.Some? then Some(SetSize(c.size.value)) else None,
      if c.thickness.Some? then Some(SetThickness(c.thickness.value)) else None,
      if c.angle.Some? then Some(SetAngle(c.angle.value)) else None,
      if c.layer.Some? then Some(SetLayer(c.layer.value)) else None ]
  }

  /** The statements present, in order. */
  function Present(slots: seq<Option<Mod>>): seq<Mod>
    decreases |slots|
  {
    if slots == [] then []
    else
      var last := slots[|slots| - 1];
      Present(slots[..|slots| - 1]) + (if last.Some? then [last.value] else [])
  }

  /** `mods`, then the slot's statement if there is one. */
  function Then(mods: seq<Mod>, slot: Option<Mod>): seq<Mod> {
    mods + (if slot.Some? then [slot.value] else [])
  }

  /** The statements the tool writes, in the order it writes them. */
  function ModsOf(c: Changes): seq<Mod> {
    var slots := Slots(c);
    Then(Then(Then(Then(Then(Then(Then([], slots[0]), slots[1]), slots[2]), slots[3]), slots[4]), slots[5]), slots[6])
  }

  /** The statements are the slots' statements, in slot order. */
  lemma ModsArePresent(c: Changes)
    ensures ModsOf(c) == Present(Slots(c))
  {
    var slots := Slots(c);
    assert Present(slots[..0]) == [];
    assert Present(slots[..1]) == Then([], slots[0]) by { PresentStep(slots, 0); }
    assert Present(slots[..2]) == Then(Present(slots[..1]), slots[1]) by { PresentStep(slots, 1); }
    assert Present(slots[..3]) == Then(Present(slots[..2]), slots[2]) by { PresentStep(slots, 2); }
    assert Present(slots[..4]) == Then(Present(slots[..3]), slots[3]) by { PresentStep(slots, 3); }
    assert Present(slots[..5]) == Then(Present(slots[..4]), slots[4]) by { PresentStep(slots, 4); }
    assert Present(slots[..6]) == Then(Present(slots[..5]), slots[5]) by { PresentStep(slots, 5); }
    assert Present(slots[..7]) == Then(Present(slots[..6]), slots[6]) by { PresentStep(slots, 6); }
    assert slots[..7] == slots;
  }

  lemma PresentStep(slots: seq<Option<Mod>>, k: nat)
    requires k < |slots|
    ensures Present(slots[..k + 1]) == Present(slots[..k]) + (if slots[k].Some? then [slots[k].value] else [])
  {
    assert slots[..k + 1][..k] == slots[..k];
  }

  /** The statement-building part of `update_silkscreen_item`. */
  method BuildMods(c: Changes) returns (mods: seq<Mod>)
    ensures mods == ModsOf(c)
  {
    ghost var slots := Slots(c);
    mods := [];
    if c.visible.Some? {
      mods := mods + [SetVisible(c.visible.value)];
    }
    ghost var want := Then([], slots[0]);
    assert mods == want;
    if c.x.Some? && c.y.Some? {
      mods := mods + [SetPosition(c.x.value, c.y.value)];
    } else if c.x.Some? || c.y.Some? {
      if c.x.Some? {
        mods := mods + [SetX(c.x.value)];
      } else {
        mods := mods + [SetY(c.y.value)];
      }
    }
    want := Then(want, slots[1]);
    assert mods == want;
    if c.relX.Some? && c.relY.Some? {
      mods := mods + [SetRelative(c.relX.value, c.relY.value)];
    }
    want := Then(want, slots[2]);
    assert mods == want;
    if c.size.Some? {
      mods := mods + [SetSize(c.size.value)];
    }
    want := Then(want, slots[3]);
    assert mods == want;
    if c.thickness.Some? {
      mods := mods + [SetThickness(c.thickness.value)];
    }
    want := Then(want, slots[4]);
    assert mods == want;
    if c.angle.Some? {
      mods := mods + [SetAngle(c.angle.value)];
    }
    want := Then(want, slots[5]);
    assert mods == want;
    if c.layer.Some? {
      mods := mods + [SetLayer(c.layer.value)];
    }
    want := Then(want, slots[6]);
    assert mods == want;
  }

  predicate StrictlyRanked(mods: seq<Mod>) {
    forall i, j :: 0 <= i < j < |mods| ==> Rank(mods[i]) < Rank(mods[j])
  }

  /** Each slot holds only statements of its own rank. */
  predicate SlotRanks(slots: seq<Option<Mod>>) {
    forall k :: 0 <= k < |slots| && slots[k].Some? ==> Rank(slots[k].value) == k
  }

  lemma SlotsRanked(c: Changes)
    ensures SlotRanks(Slots(c))
  {
  }

  /** What is present of slots that each hold their own rank comes in strictly rising
      rank, below the number of slots, and is empty exactly when every slot is. */
  lemma {:induction false} PresentRanked(slots: seq<Option<Mod>>)
    requires SlotRanks(slots)
    ensures StrictlyRanked(Present(slots))
    ensures forall i :: 0 <= i < |Present(slots)| ==> Rank(Present(slots)[i]) < |slots|
    ensures Present(slots) == [] <==> forall k :: 0 <= k < |slots| ==> slots[k].None?
    decreases |slots|
  {
    if slots != [] {
      var init := slots[..|slots| - 1];
      var last := slots[|slots| - 1];
      assert SlotRanks(init) by {
        forall k | 0 <= k < |init| && init[k].Some? ensures Rank(init[k].value) == k {
          assert init[k] == slots[k];
        }
      }
      PresentRanked(init);
      assert Present(slots) == Then(Present(init), last);
      RankedThen(Present(init), last, |init|);
      assert slots == init + [last];
      AllNoneSnoc(init, last);
    }
  }

  /** A statement of rank `n` after statements ranked below `n` keeps the rise. */
  lemma RankedThen(p: seq<Mod>, slot: Option<Mod>, n: nat)
    requires StrictlyRanked(p) && forall i :: 0 <= i < |p| ==> Rank(p[i]) < n
    requires slot.Some? ==> Rank(slot.value) == n
    ensures StrictlyRanked(Then(p, slot))
    ensures forall i :: 0 <= i < |Then(p, slot)| ==> Rank(Then(p, slot)[i]) < n + 1
    ensures Then(p, slot) == [] <==> p == [] && slot.None?
  {
    if slot.Some? {
      var q := p + [slot.value];
      forall i, j | 0 <= i < j < |q| ensures Rank(q[i]) < Rank(q[j]) {
        assert q[i] == p[i];
        if j < |p| { assert q[j] == p[j]; }
      }
    }
  }

  lemma AllNoneSnoc(init: seq<Option<Mod>>, last: Option<Mod>)
    ensures (forall k :: 0 <= k < |init + [last]| ==> (init + [last])[k].None?) <==>
      (forall k :: 0 <= k < |init| ==> init[k].None?) && last.None?
  {
    assert forall k :: 0 <= k < |init| ==> (init + [last])[k] == init[k];
    assert (init + [last])[|init|] == last;
  }

  /** The statements come in the fixed order, each kind at most once, and there are none
      exactly when no change is asked for, a lone relative coordinate counting as none. */
  lemma ModsInOrder(c: Changes)
    ensures StrictlyRanked(ModsOf(c))
    ensures forall i :: 0 <= i < |ModsOf(c)| ==> Rank(ModsOf(c)[i]) < 7
    ensures ModsOf(c) == [] <==>
      (c.visible.None? && c.x.None? && c.y.None? && !(c.relX.Some? && c.relY.Some?)
       && c.size.None? && c.thickness.None? && c.angle.None? && c.layer.None?)
  {
    SlotsRanked(c);
    PresentRanked(Slots(c));
    ModsArePresent(c);
    var slots := Slots(c);
    assert (forall k :: 0 <= k < |slots| ==> slots[k].None?) <==>
      slots[0].None? && slots[1].None? && slots[2].None? && slots[3].None? && slots[4].None?
      && slots[5].None? && slots[6].None?;
  }

  /** Where a statement puts the text that is at `p`. `rel(dx, dy)` is the board position
      pcbnew gives the offset `(dx, dy)` from the footprint, which depends on where the
      footprint lies and how it is turned, not on where the text was. */
  function Move(m: Mod, p: (int, int), rel: (int, int) -> (int, int)): (int, int) {
    match m
      case SetPosition(x, y) => (x, y)
      case SetX(x) => (x, p.1)
      case SetY(y) => (p.0, y)
      case SetRelative(dx, dy) => rel(dx, dy)
      case _ => p
  }

  /** The text's position after the statements, from `current`. */
  function PlacedAt(mods: seq<Mod>, current: (int, int), rel: (int, int) -> (int, int)): (int, int)
    decreases |mods|
  {
    if mods == [] then current
    else Move(mods[|mods| - 1], PlacedAt(mods[..|mods| - 1], current, rel), rel)
  }

  lemma PlacedAtSnoc(mods: seq<Mod>, m: Mod, current: (int, int), rel: (int, int) -> (int, int))
    ensures PlacedAt(mods + [m], current, rel) == Move(m, PlacedAt(mods, current, rel), rel)
  {
    assert (mods + [m])[..|mods|] == mods;
  }

  /** Only the statements of the two position ranks move the text. */
  lemma MoveOnlyByPosition(m: Mod, p: (int, int), rel: (int, int) -> (int, int))
    requires Rank(m) != 1 && Rank(m) != 2
    ensures Move(m, p, rel) == p
  {
  }

  /** Where the slot's statement, if any, puts the text that is at `p`. */
  function AfterSlot(slot: Option<Mod>, p: (int, int), rel: (int, int) -> (int, int)): (int, int) {
    if slot.Some? then Move(slot.value, p, rel) else p
  }

  /** Slot `i` among the first `k`, or nothing. */
  function SlotBefore(slots: seq<Option<Mod>>, i: nat, k: nat): Option<Mod>
    requires k <= |slots|
  {
    if i < k then slots[i] else None
  }

  /** Of the first `k` slots only the absolute position and then the relative position
      move the text. */
  lemma {:induction false} PlacedByPositionSlots(slots: seq<Option<Mod>>, k: nat, current: (int, int),
                                                 rel: (int, int) -> (int, int))
    requires SlotRanks(slots) && k <= |slots|
    ensures PlacedAt(Present(slots[..k]), current, rel)
      == AfterSlot(SlotBefore(slots, 2, k), AfterSlot(SlotBefore(slots, 1, k), current, rel), rel)
    decreases k
  {
    if k == 0 {
      assert slots[..0] == [];
    } else {
      PlacedByPositionSlots(slots, k - 1, current, rel);
      PresentStep(slots, k - 1);
      var prev := Present(slots[..k - 1]);
      assert k - 1 != 1 ==> SlotBefore(slots, 1, k) == SlotBefore(slots, 1, k - 1);
      assert k - 1 != 2 ==> SlotBefore(slots, 2, k) == SlotBefore(slots, 2, k - 1);
      if slots[k - 1].Some? {
        var m := slots[k - 1].value;
        assert Rank(m) == k - 1;
        PlacedAtSnoc(prev, m, current, rel);
        assert Present(slots[..k]) == prev + [m];
        if k - 1 != 1 && k - 1 != 2 {
          MoveOnlyByPosition(m, PlacedAt(prev, current, rel), rel);
        }
      } else {
        assert Present(slots[..k]) == prev;
      }
    }
  }

  /** A relative position given in both coordinates wins, being written after the absolute
      one. Otherwise, with both absolute coordinates the text goes there; with one, the
      other coordinate is the current one; with neither it stays. */
  lemma PositionKept(c: Changes, current: (int, int), rel: (int, int) -> (int, int))
    ensures PlacedAt(ModsOf(c), current, rel) ==
      if c.relX.Some? && c.relY.Some? then rel(c.relX.value, c.relY.value)
      else (if c.x.Some? then c.x.value else current.0, if c.y.Some? then c.y.value else current.1)
  {
    SlotsRanked(c);
    ModsArePresent(c);
    PlacedByPositionSlots(Slots(c), 7, current, rel);
    assert Slots(c)[..7] == Slots(c);
  }

  /** `repr()` of the field name as the error shows it. */
  function Quoted(s: string): string {
    "'" + s + "'"
  }

  /** `update_silkscreen_item` up to its script: a missing board file, a field other than
      reference or value, or no change at all are errors; otherwise the statements. */
  method UpdateItem(pcbPath: string, pcbExists: bool, field: string, c: Changes) returns (r: Result<seq<Mod>, string>)
    ensures !pcbExists ==> r == Err("PCB file not found: " + pcbPath)
    ensures pcbExists && field != "reference" && field != "value" ==>
      r == Err("field must be 'reference' or 'value', got " + Quoted(field))
    ensures r.Ok? ==> pcbExists && (field == "reference" || field == "value") && r.value == ModsOf(c) && r.value != []
    ensures pcbExists && (field == "reference" || field == "value") && ModsOf(c) == [] ==>
      r == Err("No modifications specified")
  {
    if !pcbExists {
      return Err("PCB file not found: " + pcbPath);
    }
    if field != "reference" && field != "value" {
      return Err("field must be 'reference' or 'value', got " + Quoted(field));
    }
    var mods := BuildMods(c);
    if mods == [] {
      return Err("No modifications specified");
    }
    r := Ok(mods);
  }

  // ---------------------------------------------------------------------
  // check_silkscreen_overlaps
  // ---------------------------------------------------------------------

  /** A bounding box: left, top, right, bottom. */
  datatype Box = Box(xMin: int, yMin: int, xMax: int, yMax: int)

  /** The strict axis-aligned test of the script: boxes that only touch do not overlap. */
  predicate Overlap(a: Box, b: Box) {
    a.xMin < b.xMax && a.xMax > b.xMin && a.yMin < b.yMax && a.yMax > b.yMin
  }

  lemma OverlapSymmetric(a: Box, b: Box)
    ensures Overlap(a, b) <==> Overlap(b, a)
  {
  }

  /** Boxes that share only an edge do not overlap. */
  lemma TouchingIsNotOverlap(a: Box, b: Box)
    requires a.xMax == b.xMin || a.yMax == b.yMin || b.xMax == a.xMin || b.yMax == a.yMin
    ensures !Overlap(a, b)
  {
  }

  datatype TextKind = ReferenceField | ValueField | Standalone

  /** A footprint's reference or value text. */
  datatype FieldText = FieldText(text: string, visible: bool, layer: string, box: Box)

  datatype Pad = Pad(number: string, box: Box)

  datatype Footprint = Footprint(reference: string, referenceText: FieldText, valueText: FieldText, pads: seq<Pad>)

  /** A board drawing; only some carry text, and only some can be hidden. */
  datatype Drawing = Drawing(text: Option<string>, layer: string, visibility: Option<bool>, box: Box)

  /** A silkscreen text to check; a standalone one has no component. */
  datatype SilkItem = SilkItem(kind: TextKind, component: Option<string>, text: string, layer: string, box: Box)

  datatype PadItem = PadItem(reference: string, number: string, box: Box)

  predicate OnSilk(layer: string) { layer == "F.SilkS" || layer == "B.SilkS" }

  /** The texts of one footprint that are checked: the visible ones on a silkscreen layer. */
  function FieldItems(fp: Footprint): seq<SilkItem> {
    (if fp.referenceText.visible && OnSilk(fp.referenceText.layer)
     then [SilkItem(ReferenceField, Some(fp.reference), fp.referenceText.text, fp.referenceText.layer, fp.referenceText.box)]
     else [])
    + (if fp.valueText.visible && OnSilk(fp.valueText.layer)
       then [SilkItem(ValueField, Some(fp.reference), fp.valueText.text, fp.valueText.layer, fp.valueText.box)]
       else [])
  }

  function FootprintItems(fps: seq<Footprint>): seq<SilkItem>
    decreases |fps|
  {
    if fps == [] then [] else FootprintItems(fps[..|fps| - 1]) + FieldItems(fps[|fps| - 1])
  }

  /** A drawing is checked when it has text, is on a silkscreen layer and is not hidden. */
  predicate Checked(d: Drawing) {
    d.text.Some? && OnSilk(d.layer) && !(d.visibility.Some? && !d.visibility.value)
  }

  function DrawingItems(ds: seq<Drawing>): seq<SilkItem>
    decreases |ds|
  {
    if ds == [] then []
    else
      var d := ds[|ds| - 1];
      DrawingItems(ds[..|ds| - 1]) + (if Checked(d) then [SilkItem(Standalone, None, d.text.value, d.layer, d.box)] else [])
  }

  /** `silk_items` of the script. */
  function SilkItems(fps: seq<Footprint>, ds: seq<Drawing>): seq<SilkItem> {
    FootprintItems(fps) + DrawingItems(ds)
  }

  function PadsOf(reference: string, pads: seq<Pad>): seq<PadItem>
    decreases |pads|
  {
    if pads == [] then []
    else PadsOf(reference, pads[..|pads| - 1]) + [PadItem(reference, pads[|pads| - 1].number, pads[|pads| - 1].box)]
  }

  /** `pads` of the script: every pad of every footprint, footprint by footprint. */
  function PadItems(fps: seq<Footprint>): seq<PadItem>
    decreases |fps|
  {
    if fps == [] then [] else PadItems(fps[..|fps| - 1]) + PadsOf(fps[|fps| - 1].reference, fps[|fps| - 1].pads)
  }

  /** A reported pair: the text lies over a pad of another component. */
  predicate Hit(si: SilkItem, pad: PadItem) {
    si.component != Some(pad.reference) && Overlap(si.box, pad.box)
  }

  datatype Report = Report(silk: SilkItem, pad: PadItem)

  function HitsOf(si: SilkItem, pads: seq<PadItem>): seq<Report>
    decreases |pads|
  {
    if pads == [] then []
    else HitsOf(si, pads[..|pads| - 1]) + (if Hit(si, pads[|pads| - 1]) then [Report(si, pads[|pads| - 1])] else [])
  }

  /** `overlaps` of the script, text by text and pad by pad. */
  function Overlaps(silk: seq<SilkItem>, pads: seq<PadItem>): seq<Report>
    decreases |silk|
  {
    if silk == [] then [] else Overlaps(silk[..|silk| - 1], pads) + HitsOf(silk[|silk| - 1], pads)
  }

  // The loops of the script.

  method CollectFieldItems(fp: Footprint) returns (items: seq<SilkItem>)
    ensures items == FieldItems(fp)
  {
    var fields := [(ReferenceField, fp.referenceText), (ValueField, fp.valueText)];
    items := [];
    var k := 0;
    while k < 2
      invariant 0 <= k <= 2
      invariant items == (if k == 0 then [] else if k == 1 then FieldItems(fp.(valueText := fp.valueText.(visible := false))) else FieldItems(fp))
    {
      var (kind, f) := fields[k];
      if f.visible && OnSilk(f.layer) {
        items := items + [SilkItem(kind, Some(fp.reference), f.text, f.layer, f.box)];
      }
      k := k + 1;
    }
  }

  method CollectSilkItems(fps: seq<Footprint>, ds: seq<Drawing>) returns (silk: seq<SilkItem>)
    ensures silk == SilkItems(fps, ds)
  {
    silk := [];
    var i := 0;
    while i < |fps|
      invariant 0 <= i <= |fps|
      invariant silk == FootprintItems(fps[..i])
    {
      assert fps[..i + 1][..i] == fps[..i];
      var items := CollectFieldItems(fps[i]);
      silk := silk + items;
      i := i + 1;
    }
    assert fps[..|fps|] == fps;
    var j := 0;
    while j < |ds|
      invariant 0 <= j <= |ds|
      invariant silk == FootprintItems(fps) + DrawingItems(ds[..j])
    {
      assert ds[..j + 1][..j] == ds[..j];
      var d := ds[j];
      if d.text.Some? && OnSilk(d.layer) {
        if !(d.visibility.Some? && !d.visibility.value) {
          silk := silk + [SilkItem(Standalone, None, d.text.value, d.layer, d.box)];
        }
      }
      j := j + 1;
    }
    assert ds[..|ds|] == ds;
  }

  method CollectPads(fps: seq<Footprint>) returns (pads: seq<PadItem>)
    ensures pads == PadItems(fps)
  {
    pads := [];
    var i := 0;
    while i < |fps|
      invariant 0 <= i <= |fps|
      invariant pads == PadItems(fps[..i])
    {
      assert fps[..i + 1][..i] == fps[..i];
      var fp := fps[i];
      var k := 0;
      var before := pads;
      while k < |fp.pads|
        invariant 0 <= k <= |fp.pads|
        invariant pads == before + PadsOf(fp.reference, fp.pads[..k])
      {
        assert fp.pads[..k + 1][..k] == fp.pads[..k];
        pads := pads + [PadItem(fp.reference, fp.pads[k].number, fp.pads[k].box)];
        k := k + 1;
      }
      assert fp.pads[..|fp.pads|] == fp.pads;
      i := i + 1;
    }
    assert fps[..|fps|] == fps;
  }

  method FindOverlaps(silk: seq<SilkItem>, pads: seq<PadItem>) returns (overlaps: seq<Report>)
    ensures overlaps == Overlaps(silk, pads)
  {
    overlaps := [];
    var i := 0;
    while i < |silk|
      invariant 0 <= i <= |silk|
      invariant overlaps == Overlaps(silk[..i], pads)
    {
      assert silk[..i + 1][..i] == silk[..i];
      var si := silk[i];
      var before := overlaps;
      var k := 0;
      while k < |pads|
        invariant 0 <= k <= |pads|
        invariant overlaps == before + HitsOf(si, pads[..k])
      {
        assert pads[..k + 1][..k] == pads[..k];
        var pad := pads[k];
        if si.component == Some(pad.reference) {
        } else if si.box.xMin < pad.box.xMax && si.box.xMax > pad.box.xMin
               && si.box.yMin < pad.box.yMax && si.box.yMax > pad.box.yMin {
          overlaps := overlaps + [Report(si, pad)];
        }
        k := k + 1;
      }
      assert pads[..|pads|] == pads;
      i := i + 1;
    }
    assert silk[..|silk|] == silk;
  }

  datatype OverlapSummary = OverlapSummary(silkChecked: nat, padsChecked: nat, overlaps: seq<Report>)

  /** `check_silkscreen_overlaps`: a missing file is an error; otherwise the counts and
      the overlapping pairs. */
  method CheckOverlaps(pcbPath: string, pcbExists: bool, fps: seq<Footprint>, ds: seq<Drawing>)
    returns (r: Result<OverlapSummary, string>)
    ensures !pcbExists ==> r == Err("PCB file not found: " + pcbPath)
    ensures pcbExists ==>
      r == Ok(OverlapSummary(|SilkItems(fps, ds)|, |PadItems(fps)|, Overlaps(SilkItems(fps, ds), PadItems(fps))))
  {
    if !pcbExists {
      return Err("PCB file not found: " + pcbPath);
    }
    var silk := CollectSilkItems(fps, ds);
    var pads := CollectPads(fps);
    var overlaps := FindOverlaps(silk, pads);
    r := Ok(OverlapSummary(|silk|, |pads|, overlaps));
  }

  // ---------------------------------------------------------------------
  // What the overlap check reports
  // ---------------------------------------------------------------------

  lemma {:induction false} HitsExactly(si: SilkItem, pads: seq<PadItem>)
    ensures forall rep :: rep in HitsOf(si, pads) <==> rep.silk == si && rep.pad in pads && Hit(si, rep.pad)
    decreases |pads|
  {
    if pads != [] {
      var init := pads[..|pads| - 1];
      assert pads == init + [pads[|pads| - 1]];
      HitsExactly(si, init);
    }
  }

  /** Every reported pair is a text and a pad of the board that overlap and belong to
      different components, and every such pair is reported. */
  lemma {:induction false} OverlapsExactly(silk: seq<SilkItem>, pads: seq<PadItem>)
    ensures forall rep :: rep in Overlaps(silk, pads) <==> rep.silk in silk && rep.pad in pads && Hit(rep.silk, rep.pad)
    decreases |silk|
  {
    if silk != [] {
      var init := silk[..|silk| - 1];
      var last := silk[|silk| - 1];
      assert silk == init + [last];
      OverlapsExactly(init, pads);
      HitsExactly(last, pads);
    }
  }

  /** A text is never reported against its own component's pads. */
  lemma OwnPadsNotReported(silk: seq<SilkItem>, pads: seq<PadItem>, rep: Report)
    requires rep in Overlaps(silk, pads)
    ensures rep.silk.component != Some(rep.pad.reference)
  {
    OverlapsExactly(silk, pads);
  }

  /** A footprint contributes its reference text and then its value text, each exactly
      when it is visible on a silkscreen layer, both under the footprint's reference. */
  lemma FieldItemsFacts(fp: Footprint)
    ensures |FieldItems(fp)| <= 2
    ensures forall si :: si in FieldItems(fp) ==>
      OnSilk(si.layer) && si.component == Some(fp.reference) && si.kind != Standalone
    ensures fp.referenceText.visible && OnSilk(fp.referenceText.layer) ==>
      FieldItems(fp)[0] == SilkItem(ReferenceField, Some(fp.reference), fp.referenceText.text,
                                    fp.referenceText.layer, fp.referenceText.box)
    ensures fp.valueText.visible && OnSilk(fp.valueText.layer) ==>
      FieldItems(fp)[|FieldItems(fp)| - 1] == SilkItem(ValueField, Some(fp.reference), fp.valueText.text,
                                                       fp.valueText.layer, fp.valueText.box)
  {
  }

  /** The footprints' checked texts are those of each footprint. */
  lemma {:induction false} FootprintItemsMembers(fps: seq<Footprint>)
    ensures forall si :: si in FootprintItems(fps) <==> exists j :: 0 <= j < |fps| && si in FieldItems(fps[j])
    decreases |fps|
  {
    if fps != [] {
      var init, last := fps[..|fps| - 1], fps[|fps| - 1];
      FootprintItemsMembers(init);
      forall si ensures si in FootprintItems(fps) <==> exists j :: 0 <= j < |fps| && si in FieldItems(fps[j]) {
        if si in FootprintItems(init) {
          var j :| 0 <= j < |init| && si in FieldItems(init[j]);
          assert init[j] == fps[j];
        } else if si in FieldItems(last) {
          assert fps[|fps| - 1] == last;
        } else {
          assert forall j :: 0 <= j < |init| ==> init[j] == fps[j];
        }
      }
    }
  }

  /** At most two checked texts per footprint, each on a silkscreen layer under its
      footprint's reference. */
  lemma {:induction false} FootprintItemsFacts(fps: seq<Footprint>)
    ensures forall si :: si in FootprintItems(fps) ==>
      OnSilk(si.layer) && exists j :: 0 <= j < |fps| && si.component == Some(fps[j].reference)
    ensures |FootprintItems(fps)| <= 2 * |fps|
    decreases |fps|
  {
    FootprintItemsMembers(fps);
    forall si | si in FootprintItems(fps)
      ensures OnSilk(si.layer) && exists j :: 0 <= j < |fps| && si.component == Some(fps[j].reference)
    {
      var j :| 0 <= j < |fps| && si in FieldItems(fps[j]);
      FieldItemsFacts(fps[j]);
    }
    if fps != [] {
      FootprintItemsFacts(fps[..|fps| - 1]);
      FieldItemsFacts(fps[|fps| - 1]);
    }
  }

  /** The drawings' checked texts are exactly the checked drawings, as standalone texts
      with no component, on a silkscreen layer. */
  lemma {:induction false} DrawingItemsFacts(ds: seq<Drawing>)
    ensures forall k :: 0 <= k < |DrawingItems(ds)| ==>
      OnSilk(DrawingItems(ds)[k].layer) && DrawingItems(ds)[k].kind == Standalone
      && DrawingItems(ds)[k].component.None?
    ensures forall k :: 0 <= k < |ds| && Checked(ds[k]) ==>
      SilkItem(Standalone, None, ds[k].text.value, ds[k].layer, ds[k].box) in DrawingItems(ds)
    ensures |DrawingItems(ds)| <= |ds|
    ensures (forall k :: 0 <= k < |ds| ==> !Checked(ds[k])) ==> DrawingItems(ds) == []
    decreases |ds|
  {
    if ds != [] {
      var init := ds[..|ds| - 1];
      DrawingItemsFacts(init);
      assert forall k :: 0 <= k < |init| ==> init[k] == ds[k];
    }
  }

  /** A hidden footprint text, or one off the silkscreen, is never checked. */
  lemma HiddenFieldsSkipped(fp: Footprint)
    requires !fp.referenceText.visible || !OnSilk(fp.referenceText.layer)
    requires !fp.valueText.visible || !OnSilk(fp.valueText.layer)
    ensures FieldItems(fp) == []
  {
  }
}
