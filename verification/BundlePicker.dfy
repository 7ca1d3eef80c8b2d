/** The bundle picker: a filtered two-stage list with a scroll window, driven by keys
    and resizes. */
module BundlePicker {
  import opened Wrappers
  import opened Text

  datatype Entry = Entry(name: string, quants: seq<string>)

  datatype Stage = Bundle | Quant(bundle: nat)

  datatype Key =
    | Esc | Up | Down | PageUp | PageDown | Home | End | Backspace | Enter
    | CtrlC
    | Char(c: char, controlOrAlt: bool)
    | Other

  /** The bundle id as the catalog spells it, and the quantization. */
  type Choice = (string, string)

  const USIZE_MAX: nat := 0xFFFF_FFFF_FFFF_FFFF

  // ---- rows ----------------------------------------------------------------------------

  /** `display_bundle_id`. */
  function DisplayId(name: string): string {
    if EndsWith(name, "-GGUF") then name[..|name| - 5] else name
  }

  function Lower(s: string): (r: string)
    ensures |r| == |s| && forall i :: 0 <= i < |s| ==> r[i] == LowerAscii(s[i])
  {
    seq(|s|, i requires 0 <= i < |s| => LowerAscii(s[i]))
  }

  predicate Matches(filter: string, s: string) {
    filter == "" || Find(Lower(s), Lower(filter), 0).Some?
  }

  predicate StageOk(bundles: seq<Entry>, stage: Stage) {
    stage.Quant? ==> stage.bundle < |bundles|
  }

  /** What the filter of a stage is matched against. */
  function Names(bundles: seq<Entry>, stage: Stage): (r: seq<string>)
    requires StageOk(bundles, stage)
    ensures |r| == (if stage.Bundle? then |bundles| else |bundles[stage.bundle].quants|)
  {
    match stage
    case Bundle => seq(|bundles|, i requires 0 <= i < |bundles| => DisplayId(bundles[i].name))
    case Quant(b) => bundles[b].quants
  }

  /** The numbers below `n` that satisfy `keep`, in order. */
  function Kept(keep: nat -> bool, n: nat): (r: seq<nat>)
    ensures forall k :: 0 <= k < |r| ==> r[k] < n
  {
    if n == 0 then []
    else
      var r := Kept(keep, n - 1);
      if keep(n - 1) then r + [n - 1] else r
  }

  /** `r` lists exactly the kept numbers below `n`, in order and once each. */
  predicate Lists(r: seq<nat>, keep: nat -> bool, n: nat) {
    && (forall k :: 0 <= k < |r| ==> r[k] < n && keep(r[k]))
    && (forall j, k :: 0 <= j < k < |r| ==> r[j] < r[k])
    && (forall i :: 0 <= i < n && keep(i) ==> i in r)
  }

  lemma {:induction false} KeptIsExact(keep: nat -> bool, n: nat)
    ensures Lists(Kept(keep, n), keep, n)
  {
    if n > 0 {
      KeptIsExact(keep, n - 1);
      var r, init := Kept(keep, n), Kept(keep, n - 1);
      forall i | 0 <= i < n && keep(i) ensures i in r {
        if i < n - 1 {
          assert i in init;
        } else {
          assert r[|init|] == i;
        }
      }
    }
  }

  function Passing(names: seq<string>, filter: string): nat -> bool {
    (i: nat) => i < |names| && Matches(filter, names[i])
  }

  /** `rows`: the indices shown. */
  function Rows(bundles: seq<Entry>, stage: Stage, filter: string): (r: seq<nat>)
    requires StageOk(bundles, stage)
    ensures forall k :: 0 <= k < |r| ==> r[k] < |Names(bundles, stage)|
  {
    Kept(Passing(Names(bundles, stage), filter), |Names(bundles, stage)|)
  }

  /** The rows are exactly the matching entries, in the catalog's order. */
  lemma RowsAreExact(bundles: seq<Entry>, stage: Stage, filter: string)
    requires StageOk(bundles, stage)
    ensures var names := Names(bundles, stage);
      Lists(Rows(bundles, stage, filter), Passing(names, filter), |names|)
  {
    KeptIsExact(Passing(Names(bundles, stage), filter), |Names(bundles, stage)|);
  }

  /** `part` stands in `s` at `k`, letters compared without their case. */
  predicate SameLettersAt(s: string, part: string, k: nat) {
    k + |part| <= |s| && forall d :: 0 <= d < |part| ==> LowerAscii(s[k + d]) == LowerAscii(part[d])
  }

  ghost predicate HoldsIgnoringCase(s: string, part: string) {
    exists k: nat :: SameLettersAt(s, part, k)
  }

  lemma LowerOccursIff(s: string, part: string, k: nat)
    ensures OccursAt(Lower(s), Lower(part), k) <==> SameLettersAt(s, part, k)
  {
    var l, p := Lower(s), Lower(part);
    if OccursAt(l, p, k) {
      assert forall d :: 0 <= d < |p| ==> l[k..k + |p|][d] == p[d];
    }
    if SameLettersAt(s, part, k) {
      assert l[k..k + |p|] == p;
    }
  }

  lemma MatchesIff(filter: string, s: string)
    ensures Matches(filter, s) <==> HoldsIgnoringCase(s, filter)
  {
    if filter == "" {
      assert SameLettersAt(s, filter, 0);
    } else if Find(Lower(s), Lower(filter), 0).Some? {
      LowerOccursIff(s, filter, Find(Lower(s), Lower(filter), 0).value);
    } else if k: nat :| SameLettersAt(s, filter, k) {
      LowerOccursIff(s, filter, k);
    }
  }

  /** A bundle is listed exactly when its name holds the filter, the catalog's suffix left
      away, and a quantization exactly when its own name does. */
  lemma ListedIff(bundles: seq<Entry>, filter: string, b: nat, i: nat)
    requires b < |bundles|
    ensures forall stem: string :: bundles[b].name == stem + "-GGUF" ==>
      (b in Rows(bundles, Bundle, filter) <==> HoldsIgnoringCase(stem, filter))
    ensures !EndsWith(bundles[b].name, "-GGUF") ==>
      (b in Rows(bundles, Bundle, filter) <==> HoldsIgnoringCase(bundles[b].name, filter))
    ensures i < |bundles[b].quants| ==>
      (i in Rows(bundles, Quant(b), filter) <==> HoldsIgnoringCase(bundles[b].quants[i], filter))
  {
    RowsAreExact(bundles, Bundle, filter);
    RowsAreExact(bundles, Quant(b), filter);
    MatchesIff(filter, DisplayId(bundles[b].name));
    forall stem: string | bundles[b].name == stem + "-GGUF" ensures DisplayId(bundles[b].name) == stem {
      assert (stem + "-GGUF")[..|stem|] == stem && (stem + "-GGUF")[|stem|..] == "-GGUF";
    }
    if i < |bundles[b].quants| {
      MatchesIff(filter, bundles[b].quants[i]);
    }
  }

  // ---- settling ------------------------------------------------------------------------------

  function Min(a: nat, b: nat): nat {
    if a < b then a else b
  }

  function Max(a: nat, b: nat): nat {
    if a < b then b else a
  }

  function Minus(a: nat, b: nat): nat {
    if a < b then 0 else a - b
  }

  /** The cursor is a row, inside the window of `height` rows at `offset`, and the
      window leaves no row unshown above a blank tail. */
  predicate InWindow(len: nat, cursor: nat, offset: nat, height: nat) {
    if len == 0 then cursor == 0 && offset == 0
    else
      && cursor < len
      && offset <= cursor
      && (height > 0 ==> cursor < offset + height)
      && offset <= Minus(len, Max(height, 1))
  }

  function Distance(a: nat, b: nat): nat {
    if a < b then b - a else a - b
  }

  datatype View = View(stage: Stage, filter: string, cursor: nat, offset: nat)

  /** The arithmetic of `settle`. */
  function Settle(v: View, len: nat, height: nat): View {
    if len == 0 then v.(cursor := 0, offset := 0)
    else
      var cursor := Min(v.cursor, len - 1);
      var offset :=
        if cursor < v.offset then cursor
        else if height > 0 && cursor >= v.offset + height then cursor + 1 - height
        else v.offset;
      v.(cursor := cursor, offset := Min(offset, Minus(len, Max(height, 1))))
  }

  /** Settling clamps the cursor, brings it into the window, and scrolls no further
      than it must: no other good offset is closer to the old one. */
  lemma SettleIsMinimal(v: View, len: nat, height: nat)
    ensures var w := Settle(v, len, height);
      && w.stage == v.stage && w.filter == v.filter
      && InWindow(len, w.cursor, w.offset, height)
      && (len > 0 ==> w.cursor == Min(v.cursor, len - 1))
      && (forall o: nat :: height > 0 && InWindow(len, w.cursor, o, height) ==>
            Distance(w.offset, v.offset) <= Distance(o, v.offset))
  {
  }

  /** A settled view stays as it is. */
  lemma SettledStays(v: View, len: nat, height: nat)
    ensures InWindow(len, v.cursor, v.offset, height) <==> Settle(v, len, height) == v
  {
  }

  // ---- keys ------------------------------------------------------------------------------------

  function Popped(s: string): string {
    if s == "" then "" else s[..|s| - 1]
  }

  /** A key that neither leaves nor selects, before settling. */
  function Moved(v: View, k: Key, height: nat): View {
    match k
    case Up => v.(cursor := Minus(v.cursor, 1))
    case Down => v.(cursor := v.cursor + 1)
    case PageUp => v.(cursor := Minus(v.cursor, Max(height, 1)))
    case PageDown => v.(cursor := v.cursor + Max(height, 1))
    case Home => v.(cursor := 0)
    case End => v.(cursor := USIZE_MAX)
    case Backspace => v.(filter := Popped(v.filter))
    case Char(c, held) => if held then v else v.(filter := v.filter + [c], cursor := 0, offset := 0)
    case _ => v
  }

  /** Still choosing, or done: cancelled or with a choice. */
  datatype Outcome = Open(view: View) | Closed(choice: Option<Choice>)

  /** One key, settling included. */
  function Pressed(bundles: seq<Entry>, v: View, k: Key, height: nat): Outcome
    requires StageOk(bundles, v.stage)
  {
    match k
    case CtrlC => Closed(None)
    case Esc => if v.stage.Bundle? then Closed(None) else Open(Resettled(bundles, View(Bundle, "", 0, 0), height))
    case Enter =>
      var rows := Rows(bundles, v.stage, v.filter);
      if v.cursor >= |rows| then Open(v)
      else Chosen(bundles, v.stage, rows[v.cursor], height)
    case _ => Open(Resettled(bundles, Moved(v, k, height), height))
  }

  function Resettled(bundles: seq<Entry>, v: View, height: nat): View
    requires StageOk(bundles, v.stage)
  {
    Settle(v, |Rows(bundles, v.stage, v.filter)|, height)
  }

  function Chosen(bundles: seq<Entry>, stage: Stage, index: nat, height: nat): Outcome
    requires StageOk(bundles, stage) && index < |Names(bundles, stage)|
  {
    match stage
    case Bundle =>
      if |bundles[index].quants| == 1 then Closed(Some((bundles[index].name, bundles[index].quants[0])))
      else Open(Resettled(bundles, View(Quant(index), "", 0, 0), height))
    case Quant(b) => Closed(Some((bundles[b].name, bundles[b].quants[index])))
  }

  // ---- the loop --------------------------------------------------------------------------------

  /** One turn of the loop: the height of the frame drawn, and what the poll gives if
      the loop gets that far. */
  datatype Tick = Tick(height: nat, key: Option<Key>)

  datatype Loop = Loop(outcome: Outcome, settledHeight: nat)

  function Start(): Loop {
    Loop(Open(View(Bundle, "", 0, 0)), 0)
  }

  predicate LoopOk(bundles: seq<Entry>, l: Loop) {
    l.outcome.Open? ==> StageOk(bundles, l.outcome.view.stage)
  }

  function Turn(bundles: seq<Entry>, l: Loop, tick: Tick): Loop
    requires LoopOk(bundles, l)
  {
    if l.outcome.Closed? then l
    else if tick.height != l.settledHeight then
      Loop(Open(Resettled(bundles, l.outcome.view, tick.height)), tick.height)
    else if tick.key.None? then l
    else l.(outcome := Pressed(bundles, l.outcome.view, tick.key.value, tick.height))
  }

  function Turns(bundles: seq<Entry>, l: Loop, ticks: seq<Tick>): Loop
    requires LoopOk(bundles, l)
    decreases |ticks|
  {
    if ticks == [] then l
    else
      TurnOk(bundles, l, ticks[0]);
      Turns(bundles, Turn(bundles, l, ticks[0]), ticks[1..])
  }

  lemma ChosenOk(bundles: seq<Entry>, stage: Stage, index: nat, height: nat)
    requires StageOk(bundles, stage) && index < |Names(bundles, stage)|
    ensures LoopOk(bundles, Loop(Chosen(bundles, stage, index, height), height))
  {
  }

  lemma PressedOk(bundles: seq<Entry>, v: View, k: Key, height: nat)
    requires StageOk(bundles, v.stage)
    ensures LoopOk(bundles, Loop(Pressed(bundles, v, k, height), height))
  {
    if k.Enter? && v.cursor < |Rows(bundles, v.stage, v.filter)| {
      ChosenOk(bundles, v.stage, Rows(bundles, v.stage, v.filter)[v.cursor], height);
    }
  }

  lemma TurnOk(bundles: seq<Entry>, l: Loop, tick: Tick)
    requires LoopOk(bundles, l)
    ensures LoopOk(bundles, Turn(bundles, l, tick))
  {
    if l.outcome.Open? && tick.key.Some? {
      PressedOk(bundles, l.outcome.view, tick.key.value, tick.height);
    }
  }

  /** The list is settled for the height last drawn, and a choice is in the catalog. */
  ghost predicate Sound(bundles: seq<Entry>, l: Loop) {
    match l.outcome
    case Open(v) =>
      && StageOk(bundles, v.stage)
      && InWindow(|Rows(bundles, v.stage, v.filter)|, v.cursor, v.offset, l.settledHeight)
    case Closed(None) => true
    case Closed(Some(choice)) => InCatalog(bundles, choice)
  }

  ghost predicate InCatalog(bundles: seq<Entry>, choice: Choice) {
    exists b, q :: 0 <= b < |bundles| && 0 <= q < |bundles[b].quants|
      && choice == (bundles[b].name, bundles[b].quants[q])
  }

  lemma ResettledSound(bundles: seq<Entry>, v: View, height: nat)
    requires StageOk(bundles, v.stage)
    ensures Sound(bundles, Loop(Open(Resettled(bundles, v, height)), height))
  {
    SettleIsMinimal(v, |Rows(bundles, v.stage, v.filter)|, height);
  }

  lemma ChosenSound(bundles: seq<Entry>, stage: Stage, index: nat, height: nat)
    requires StageOk(bundles, stage) && index < |Names(bundles, stage)|
    ensures Sound(bundles, Loop(Chosen(bundles, stage, index, height), height))
  {
    match stage
    case Bundle =>
      if |bundles[index].quants| == 1 {
        assert InCatalog(bundles, (bundles[index].name, bundles[index].quants[0]));
      } else {
        ResettledSound(bundles, View(Quant(index), "", 0, 0), height);
      }
    case Quant(b) =>
      assert InCatalog(bundles, (bundles[b].name, bundles[b].quants[index]));
  }

  lemma PressedSound(bundles: seq<Entry>, v: View, k: Key, height: nat)
    requires Sound(bundles, Loop(Open(v), height))
    ensures Sound(bundles, Loop(Pressed(bundles, v, k, height), height))
  {
    var rows := Rows(bundles, v.stage, v.filter);
    if k.Enter? {
      if v.cursor < |rows| {
        ChosenSound(bundles, v.stage, rows[v.cursor], height);
      }
    } else if k.Esc? {
      ResettledSound(bundles, View(Bundle, "", 0, 0), height);
    } else if !k.CtrlC? {
      ResettledSound(bundles, Moved(v, k, height), height);
    }
  }

  lemma TurnSound(bundles: seq<Entry>, l: Loop, tick: Tick)
    requires LoopOk(bundles, l) && Sound(bundles, l)
    ensures Sound(bundles, Turn(bundles, l, tick))
  {
    if l.outcome.Open? {
      if tick.height != l.settledHeight {
        ResettledSound(bundles, l.outcome.view, tick.height);
      } else if tick.key.Some? {
        PressedSound(bundles, l.outcome.view, tick.key.value, tick.height);
      }
    }
  }

  lemma {:induction false} TurnsSound(bundles: seq<Entry>, l: Loop, ticks: seq<Tick>)
    requires LoopOk(bundles, l) && Sound(bundles, l)
    ensures LoopOk(bundles, Turns(bundles, l, ticks)) && Sound(bundles, Turns(bundles, l, ticks))
    decreases |ticks|
  {
    if ticks != [] {
      TurnOk(bundles, l, ticks[0]);
      TurnSound(bundles, l, ticks[0]);
      TurnsSound(bundles, Turn(bundles, l, ticks[0]), ticks[1..]);
    }
  }

  /** Over every run of keys, filter edits, stage changes and resizes, whenever the
      loop waits for a key the cursor is a shown row and the window has no avoidable
      blank tail; whatever it returns is in the catalog. */
  lemma AlwaysVisible(bundles: seq<Entry>, ticks: seq<Tick>)
    ensures LoopOk(bundles, Turns(bundles, Start(), ticks)) && Sound(bundles, Turns(bundles, Start(), ticks))
  {
    TurnsSound(bundles, Start(), ticks);
  }

  // ---- what is on screen -----------------------------------------------------------------------

  /** The rows drawn: skip to the offset, take the height. */
  function Window(rows: seq<nat>, offset: nat, height: nat): seq<nat> {
    var from := Min(offset, |rows|);
    rows[from..Min(from + height, |rows|)]
  }

  function Drawn(bundles: seq<Entry>, v: View, height: nat): seq<nat>
    requires StageOk(bundles, v.stage)
  {
    Window(Rows(bundles, v.stage, v.filter), v.offset, height)
  }

  /** Line `line` of the drawn window carries the marker. */
  predicate Highlighted(window: seq<nat>, v: View, line: nat) {
    line < |window| && v.offset + line == v.cursor
  }

  lemma WindowHasCursor(rows: seq<nat>, v: View, height: nat)
    requires height > 0 && rows != [] && InWindow(|rows|, v.cursor, v.offset, height)
    ensures v.offset <= v.cursor && Highlighted(Window(rows, v.offset, height), v, v.cursor - v.offset)
    ensures Window(rows, v.offset, height)[v.cursor - v.offset] == rows[v.cursor]
  {
  }

  /** In every reachable state with rows and room, one drawn line carries the marker,
      and Enter acts on that line's entry: it returns the bundle's name with its only
      quantization, opens the list of its quantizations, or returns the one on the line. */
  lemma EnterActsOnHighlighted(bundles: seq<Entry>, ticks: seq<Tick>, v: View, height: nat)
    requires Turns(bundles, Start(), ticks) == Loop(Open(v), height) && height > 0
    requires StageOk(bundles, v.stage) && Rows(bundles, v.stage, v.filter) != []
    ensures v.offset <= v.cursor && Highlighted(Drawn(bundles, v, height), v, v.cursor - v.offset)
    ensures var index := Drawn(bundles, v, height)[v.cursor - v.offset];
      && index < |Names(bundles, v.stage)|
      && Pressed(bundles, v, Enter, height) ==
         (match v.stage
          case Bundle =>
            if |bundles[index].quants| == 1 then Closed(Some((bundles[index].name, bundles[index].quants[0])))
            else Open(View(Quant(index), "", 0, 0))
          case Quant(b) => Closed(Some((bundles[b].name, bundles[b].quants[index]))))
  {
    AlwaysVisible(bundles, ticks);
    WindowHasCursor(Rows(bundles, v.stage, v.filter), v, height);
  }

  /** Esc goes back from the quantizations to the top of the whole list, and leaves from
      there without a choice; Ctrl+C leaves from anywhere. */
  lemma EscGoesBack(bundles: seq<Entry>, b: nat, filter: string, cursor: nat, offset: nat, height: nat)
    requires b < |bundles|
    ensures Pressed(bundles, View(Quant(b), filter, cursor, offset), Esc, height) == Open(View(Bundle, "", 0, 0))
    ensures Pressed(bundles, View(Bundle, filter, cursor, offset), Esc, height) == Closed(None)
    ensures Pressed(bundles, View(Quant(b), filter, cursor, offset), CtrlC, height) == Closed(None)
         == Pressed(bundles, View(Bundle, filter, cursor, offset), CtrlC, height)
  {
    RowsAreExact(bundles, Bundle, "");
  }

  // ---- what keys do together -----------------------------------------------------------------

  /** The view after a moving key. */
  function Went(bundles: seq<Entry>, v: View, k: Key, height: nat): View
    requires StageOk(bundles, v.stage)
  {
    Resettled(bundles, Moved(v, k, height), height)
  }

  predicate Moves(k: Key) {
    k.Up? || k.Down? || k.PageUp? || k.PageDown? || k.Home? || k.End?
  }

  lemma MovesKeepRows(bundles: seq<Entry>, v: View, k: Key, height: nat)
    requires StageOk(bundles, v.stage) && Moves(k)
    ensures Pressed(bundles, v, k, height) == Open(Went(bundles, v, k, height))
    ensures Went(bundles, v, k, height).stage == v.stage && Went(bundles, v, k, height).filter == v.filter
  {
  }

  /** Home and End reach the first and the last row; Up undoes Down, and PageUp
      undoes PageDown, exactly when the list's end did not stop them. */
  lemma MovesUndo(bundles: seq<Entry>, v: View, height: nat)
    requires StageOk(bundles, v.stage)
    requires var len := |Rows(bundles, v.stage, v.filter)|; v.cursor < len <= USIZE_MAX
    ensures var len := |Rows(bundles, v.stage, v.filter)|;
      && Went(bundles, v, Home, height).cursor == 0
      && Went(bundles, v, End, height).cursor == len - 1
      && (Went(bundles, Went(bundles, v, Down, height), Up, height).cursor == v.cursor <==>
            v.cursor + 1 < len || v.cursor == 0)
      && (Went(bundles, Went(bundles, v, PageDown, height), PageUp, height).cursor == v.cursor <==>
            v.cursor + Max(height, 1) < len || v.cursor == 0)
  {
    var len := |Rows(bundles, v.stage, v.filter)|;
    MoveBack(v, len, height);
    MovesKeepRows(bundles, v, Down, height);
    MovesKeepRows(bundles, v, PageDown, height);
  }

  lemma MoveBack(v: View, len: nat, height: nat)
    requires v.cursor < len <= USIZE_MAX
    ensures Settle(Moved(v, Home, height), len, height).cursor == 0
    ensures Settle(Moved(v, End, height), len, height).cursor == len - 1
    ensures Settle(Moved(Settle(Moved(v, Down, height), len, height), Up, height), len, height).cursor == v.cursor
       <==> v.cursor + 1 < len || v.cursor == 0
    ensures Settle(Moved(Settle(Moved(v, PageDown, height), len, height), PageUp, height), len, height).cursor == v.cursor
       <==> v.cursor + Max(height, 1) < len || v.cursor == 0
  {
  }

  /** A typed character and a Backspace give the filter back, with the list shown
      from its top: the whole view exactly where that was at the top before. */
  lemma BackspaceUndoesTyping(bundles: seq<Entry>, v: View, c: char, height: nat, later: nat)
    requires StageOk(bundles, v.stage)
    ensures var typed := Pressed(bundles, v, Char(c, false), height);
      && typed.Open? && StageOk(bundles, typed.view.stage)
      && var back := Pressed(bundles, typed.view, Backspace, later);
      && back.Open? && back.view.stage == v.stage && back.view.filter == v.filter
      && (back.view == v <==> v.cursor == 0 && v.offset == 0)
  {
    assert (v.filter + [c])[..|v.filter|] == v.filter;
  }

  lemma {:induction false} KeptGrows(some: nat -> bool, more: nat -> bool, n: nat)
    requires forall i: nat :: some(i) ==> more(i)
    ensures |Kept(some, n)| <= |Kept(more, n)|
  {
    if n > 0 {
      KeptGrows(some, more, n - 1);
    }
  }

  lemma ShorterMatches(filter: string, s: string)
    requires Matches(filter, s)
    ensures Matches(Popped(filter), s)
  {
    MatchesIff(filter, s);
    MatchesIff(Popped(filter), s);
    var k: nat :| SameLettersAt(s, filter, k);
    assert SameLettersAt(s, Popped(filter), k);
  }

  /** Backspace shows no fewer rows, and the cursor stays on the same place among them. */
  lemma BackspaceKeepsPlace(bundles: seq<Entry>, v: View, height: nat)
    requires StageOk(bundles, v.stage) && v.cursor < |Rows(bundles, v.stage, v.filter)|
    ensures var back := Pressed(bundles, v, Backspace, height);
      && back.Open? && back.view.stage == v.stage && back.view.cursor == v.cursor
      && |Rows(bundles, v.stage, v.filter)| <= |Rows(bundles, v.stage, back.view.filter)|
  {
    var names := Names(bundles, v.stage);
    forall i: nat | Passing(names, v.filter)(i) ensures Passing(names, Popped(v.filter))(i) {
      ShorterMatches(v.filter, names[i]);
    }
    KeptGrows(Passing(names, v.filter), Passing(names, Popped(v.filter)), |names|);
  }

  // ---- the picker itself -------------------------------------------------------------------------

  class PickerState {
    const bundles: seq<Entry>
    var stage: Stage
    var filter: string
    var cursor: nat
    var offset: nat

    ghost function Shown(): View
      reads this
    {
      View(stage, filter, cursor, offset)
    }

    constructor (bundles: seq<Entry>)
      ensures this.bundles == bundles && Open(Shown()) == Start().outcome
    {
      this.bundles := bundles;
      stage := Bundle;
      filter := "";
      cursor := 0;
      offset := 0;
    }

    /** `settle`. */
    method SettleAt(height: nat)
      requires StageOk(bundles, stage)
      modifies this`cursor, this`offset
      ensures Shown() == Resettled(bundles, old(Shown()), height)
    {
      var len := |Rows(bundles, stage, filter)|;
      if len == 0 {
        cursor := 0;
        offset := 0;
        return;
      }
      cursor := Min(cursor, len - 1);
      if cursor < offset {
        offset := cursor;
      } else if height > 0 && cursor >= offset + height {
        offset := cursor + 1 - height;
      }
      offset := Min(offset, Minus(len, Max(height, 1)));
    }

    method ChangeStage(next: Stage)
      modifies this
      ensures Shown() == View(next, "", 0, 0)
    {
      stage := next;
      filter := "";
      cursor := 0;
      offset := 0;
    }

    /** The keys that neither leave nor select. */
    method Move(k: Key, height: nat)
      requires StageOk(bundles, stage) && !k.CtrlC? && !k.Esc? && !k.Enter?
      modifies this`filter, this`cursor, this`offset
      ensures Shown() == Moved(old(Shown()), k, height)
    {
      match k {
        case Up => cursor := Minus(cursor, 1);
        case Down => cursor := cursor + 1;
        case PageUp => cursor := Minus(cursor, Max(height, 1));
        case PageDown => cursor := cursor + Max(height, 1);
        case Home => cursor := 0;
        case End => cursor := USIZE_MAX;
        case Backspace => filter := Popped(filter);
        case Char(c, held) =>
          if !held {
            filter := filter + [c];
            cursor := 0;
            offset := 0;
          }
        case Other =>
      }
    }

    /** Enter. */
    method Select(height: nat) returns (closed: Option<Option<Choice>>)
      requires StageOk(bundles, stage)
      modifies this
      ensures StageOk(bundles, stage)
      ensures Pressed(bundles, old(Shown()), Enter, height)
           == if closed.Some? then Closed(closed.value) else Open(Shown())
    {
      var rows := Rows(bundles, stage, filter);
      if cursor >= |rows| {
        return None;
      }
      var index := rows[cursor];
      match stage {
        case Bundle =>
          if |bundles[index].quants| == 1 {
            return Some(Some((bundles[index].name, bundles[index].quants[0])));
          }
          ChangeStage(Quant(index));
          SettleAt(height);
          return None;
        case Quant(b) =>
          return Some(Some((bundles[b].name, bundles[b].quants[index])));
      }
    }

    /** The key half of the loop body. */
    method Press(k: Key, height: nat) returns (closed: Option<Option<Choice>>)
      requires StageOk(bundles, stage)
      modifies this
      ensures StageOk(bundles, stage)
      ensures Pressed(bundles, old(Shown()), k, height)
           == if closed.Some? then Closed(closed.value) else Open(Shown())
    {
      match k {
        case CtrlC =>
          return Some(None);
        case Esc =>
          if stage.Bundle? {
            return Some(None);
          }
          ChangeStage(Bundle);
        case Enter =>
          closed := Select(height);
          return;
        case _ =>
          Move(k, height);
      }
      SettleAt(height);
      return None;
    }
  }

  /** `run`, for as many frames as are drawn; none if it is still open then. */
  method Run(bundles: seq<Entry>, ticks: seq<Tick>) returns (closed: Option<Option<Choice>>)
    ensures closed.Some? ==> Turns(bundles, Start(), ticks).outcome == Closed(closed.value)
    ensures closed.None? ==> Turns(bundles, Start(), ticks).outcome.Open?
    ensures closed.Some? && closed.value.Some? ==> InCatalog(bundles, closed.value.value)
  {
    AlwaysVisible(bundles, ticks);
    var state := new PickerState(bundles);
    var settledHeight := 0;
    var rest := ticks;
    while rest != []
      invariant state.bundles == bundles && StageOk(bundles, state.stage) && fresh(state)
      invariant Turns(bundles, Start(), ticks) == Turns(bundles, Loop(Open(state.Shown()), settledHeight), rest)
      decreases |rest|
    {
      var tick := rest[0];
      ghost var now := Loop(Open(state.Shown()), settledHeight);
      TurnOk(bundles, now, tick);
      rest := rest[1..];
      if tick.height != settledHeight {
        state.SettleAt(tick.height);
        settledHeight := tick.height;
        continue;
      }
      if tick.key.None? {
        continue;
      }
      closed := state.Press(tick.key.value, tick.height);
      if closed.Some? {
        ClosedStays(bundles, Turn(bundles, now, tick), rest);
        return;
      }
    }
    return None;
  }

  lemma {:induction false} ClosedStays(bundles: seq<Entry>, l: Loop, ticks: seq<Tick>)
    requires l.outcome.Closed?
    ensures Turns(bundles, l, ticks) == l
    decreases |ticks|
  {
    if ticks != [] {
      ClosedStays(bundles, l, ticks[1..]);
    }
  }
}
