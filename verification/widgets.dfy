/** The widget record of `BaseWidget` and its two variants `ToggleButton`
    and `Button`: construction, the per-variant flag derivation, the shared
    state update and rendering. */
module Widgets {
  import opened Wrappers
  import opened Styles
  import opened StateMachine
  import opened Normalization

  /** Which class the widget was built from. */
  datatype Kind = Base | ToggleButton | Button

  /** A widget: its configuration, condition flags, current state name and
      the visuals last resolved for that state. */
  datatype Widget = Widget(
    kind: Kind,
    data: Config,
    flags: Flags,
    current: string,
    style: Option<StyleEntry>,
    texture: Option<Texture>,
    rect: Rect)

  /** Why construction can fail. */
  datatype WidgetError = VisualFailure(visual: VisualError) | ConfigFailure(config: ConfigError)

  /** An input event as the widgets see it: its type and mouse button. */
  datatype EventType = MouseButtonDown | OtherEvent(code: int)
  datatype Event = Event(kind: EventType, button: int)

  const LeftButton: int := 1

  /** What one frame reads from the input devices: the pointer position, the
      left-button level and the event queue. */
  datatype Input = Input(px: int, py: int, leftDown: bool, events: seq<Event>)

  /** One `blit` of a texture at a rect. */
  datatype Draw = Draw(texture: Texture, rect: Rect)

  /** Python's `1 if b else 0`. */
  function Bit(b: bool): int {
    if b then 1 else 0
  }

  /** `_update_visuals`: look up the current state's entry and resolve it.
      Only `style`, `texture` and `rect` change. */
  function UpdateVisuals(w: Widget, producers: Producers): (r: Result<Widget, VisualError>)
    ensures r == Err(UnknownState(w.current)) <==> w.current !in w.data.states
    ensures r.Ok? <==> w.current in w.data.states && Drawable(w.data.states[w.current])
    ensures w.current in w.data.states ==>
      (r == Err(BadPos) <==> !(PosKey in w.data.states[w.current] && w.data.states[w.current][PosKey].PosValue?))
    ensures r.Ok? ==> r.value.(style := w.style, texture := w.texture, rect := w.rect) == w
    ensures r.Ok? ==>
      && r.value.style == Some(w.data.states[w.current])
      && ResolveVisuals(w.data.states[w.current], w.rect, producers) == Ok(Visuals(r.value.texture, r.value.rect))
  {
    if w.current !in w.data.states then Err(UnknownState(w.current))
    else
      var e := w.data.states[w.current];
      match ResolveVisuals(e, w.rect, producers)
      case Err(err) => Err(err)
      case Ok(v) => Ok(w.(style := Some(e), texture := v.texture, rect := v.rect))
  }

  /** `BaseWidget.update`: resolve the state from the flags; visuals are
      recomputed only when the state changes, otherwise the widget is
      returned untouched. */
  function BaseUpdate(w: Widget, producers: Producers): (r: Result<Widget, VisualError>)
    ensures Resolve(w.flags, w.data.order) == w.current ==> r == Ok(w)
    ensures r.Ok? ==> r.value.current == Resolve(w.flags, w.data.order)
    ensures r.Ok? ==> r.value.kind == w.kind && r.value.data == w.data && r.value.flags == w.flags
    ensures Resolve(w.flags, w.data.order) != w.current ==>
      r == UpdateVisuals(w.(current := Resolve(w.flags, w.data.order)), producers)
  {
    var next := Resolve(w.flags, w.data.order);
    if next == w.current then Ok(w) else UpdateVisuals(w.(current := next), producers)
  }

  /** A second update with the same flags is a no-op: the state it resolves
      is the one already current, so nothing is recomputed. */
  lemma BaseUpdateStable(w: Widget, producers: Producers, later: Producers)
    requires BaseUpdate(w, producers).Ok?
    ensures BaseUpdate(BaseUpdate(w, producers).value, later) == BaseUpdate(w, producers)
  {
  }

  /** A press of the left button. */
  predicate IsLeftClick(e: Event) {
    e.kind == MouseButtonDown && e.button == LeftButton
  }

  /** Number of left-button presses in the queue. */
  function LeftClicks(events: seq<Event>): nat
    decreases |events|
  {
    if |events| == 0 then 0 else Bit(IsLeftClick(events[0])) + LeftClicks(events[1..])
  }

  /** The event loop of `ToggleButton.update`: `pressed` becomes `1 - pressed`
      on every left press while hovered. */
  function TogglePressed(pressed: int, hovered: bool, events: seq<Event>): (r: int)
    ensures r == pressed || r == 1 - pressed
    ensures !hovered ==> r == pressed
    decreases |events|
  {
    if |events| == 0 then pressed
    else
      var next := if IsLeftClick(events[0]) && hovered then 1 - pressed else pressed;
      TogglePressed(next, hovered, events[1..])
  }

  /** Toggle parity: the press flips once per left press while hovered, so
      only the parity of the presses matters; without hover, or with no new
      press, it keeps its value. */
  lemma {:induction false} ToggleParity(pressed: int, hovered: bool, events: seq<Event>)
    ensures TogglePressed(pressed, hovered, events)
         == if hovered && LeftClicks(events) % 2 == 1 then 1 - pressed else pressed
    decreases |events|
  {
    if |events| > 0 {
      var next := if IsLeftClick(events[0]) && hovered then 1 - pressed else pressed;
      ToggleParity(next, hovered, events[1..]);
    }
  }

  /** `ToggleButton`'s flags: Hovered from the hit test, then Pressed toggled
      by the events; no other flag changes. */
  function ToggleFlags(flags: Flags, hovered: bool, events: seq<Event>): (r: Flags)
    requires PressedFlag in flags
    ensures r.Keys == flags.Keys + {HoveredFlag}
    ensures r[HoveredFlag] == Bit(hovered)
    ensures r[PressedFlag] == if hovered && LeftClicks(events) % 2 == 1 then 1 - flags[PressedFlag] else flags[PressedFlag]
    ensures forall k :: k in flags && k != HoveredFlag && k != PressedFlag ==> r[k] == flags[k]
  {
    ToggleParity(flags[PressedFlag], hovered, events);
    var withHover := flags[HoveredFlag := Bit(hovered)];
    withHover[PressedFlag := TogglePressed(withHover[PressedFlag], withHover[HoveredFlag] != 0, events)]
  }

  /** `Button`'s flags: Hovered from the hit test; while hovered Pressed
      copies the button level, otherwise it keeps its previous value. */
  function ButtonFlags(flags: Flags, hovered: bool, leftDown: bool): (r: Flags)
    ensures r.Keys == flags.Keys + {HoveredFlag} + (if hovered then {PressedFlag} else {})
    ensures r[HoveredFlag] == Bit(hovered)
    ensures hovered ==> r[PressedFlag] == Bit(leftDown)
    ensures !hovered && PressedFlag in flags ==> r[PressedFlag] == flags[PressedFlag]
    ensures forall k :: k in flags && k != HoveredFlag && k != PressedFlag ==> r[k] == flags[k]
  {
    var withHover := flags[HoveredFlag := Bit(hovered)];
    if withHover[HoveredFlag] != 0 then withHover[PressedFlag := Bit(leftDown)] else withHover
  }

  /** A widget `update` can run on: a toggle reads its Pressed flag. */
  predicate Updatable(w: Widget) {
    w.kind == ToggleButton ==> PressedFlag in w.flags
  }

  /** The flags each class derives at the start of `update(events)`, from
      the rect the widget had before the frame: the base class derives none;
      both buttons set Hovered from the hit test; a toggle flips Pressed by
      parity of the left presses; a momentary button copies the level while
      hovered and otherwise keeps Pressed. */
  function FrameFlags(w: Widget, input: Input): (r: Flags)
    requires Updatable(w)
    ensures w.kind == Base ==> r == w.flags
    ensures w.kind == ToggleButton ==> r.Keys == w.flags.Keys + {HoveredFlag}
    ensures w.kind == Button ==>
      r.Keys == w.flags.Keys + {HoveredFlag} + (if Contains(w.rect, input.px, input.py) then {PressedFlag} else {})
    ensures w.kind != Base ==>
      forall k :: k in w.flags && k != HoveredFlag && k != PressedFlag ==> r[k] == w.flags[k]
    ensures w.kind != Base ==> r[HoveredFlag] == Bit(Contains(w.rect, input.px, input.py))
    ensures w.kind == ToggleButton ==>
      r[PressedFlag]
        == if Contains(w.rect, input.px, input.py) && LeftClicks(input.events) % 2 == 1
           then 1 - w.flags[PressedFlag] else w.flags[PressedFlag]
    ensures w.kind == Button && Contains(w.rect, input.px, input.py) ==>
      PressedFlag in r && r[PressedFlag] == Bit(input.leftDown)
    ensures w.kind == Button && !Contains(w.rect, input.px, input.py) && PressedFlag in w.flags ==>
      r[PressedFlag] == w.flags[PressedFlag]
  {
    var hovered := Contains(w.rect, input.px, input.py);
    match w.kind
    case Base => w.flags
    case ToggleButton => ToggleFlags(w.flags, hovered, input.events)
    case Button => ButtonFlags(w.flags, hovered, input.leftDown)
  }

  /** `update(events)` of each class: derive the flags, then run the shared
      state update of the base class on them. */
  function Update(w: Widget, input: Input, producers: Producers): (r: Result<Widget, VisualError>)
    requires Updatable(w)
    ensures r.Ok? ==> r.value.kind == w.kind && r.value.data == w.data
    ensures r.Ok? ==> r.value.flags == FrameFlags(w, input)
    ensures r.Ok? ==> r.value.current == Resolve(r.value.flags, w.data.order)
    ensures Resolve(FrameFlags(w, input), w.data.order) == w.current ==> r == Ok(w.(flags := FrameFlags(w, input)))
    ensures Resolve(FrameFlags(w, input), w.data.order) != w.current ==>
      var next := Resolve(FrameFlags(w, input), w.data.order);
      && (r.Ok? <==> next in w.data.states && Drawable(w.data.states[next]))
      && (r.Ok? ==>
            && r.value.style == Some(w.data.states[next])
            && ResolveVisuals(w.data.states[next], w.rect, producers) == Ok(Visuals(r.value.texture, r.value.rect)))
  {
    BaseUpdate(w.(flags := FrameFlags(w, input)), producers)
  }

  /** `render`: one draw of the texture at the rect, or nothing without a texture. */
  function Render(w: Widget): (r: seq<Draw>)
    ensures |r| <= 1
    ensures |r| == 1 <==> w.texture.Some?
    ensures |r| == 1 ==> r[0].texture == w.texture.value && r[0].rect == w.rect
  {
    if w.texture.Some? then [Draw(w.texture.value, w.rect)] else []
  }

  /** The flags `correct_data` installs for both button classes. */
  const ButtonStartFlags: Flags := map[HoveredFlag := 0, PressedFlag := 0]

  /** A widget as the base constructor leaves it before resolving visuals:
      in state "Default" with nothing to draw, and a zero rect no pointer
      position hits. */
  function Initial(kind: Kind, data: Config): (r: Widget)
    ensures r.kind == kind && r.data == data && r.current == DefaultState
    ensures r.flags == map[] && r.style.None?
    ensures Render(r) == []
    ensures forall px, py :: !Contains(r.rect, px, py)
  {
    Widget(kind, data, map[], DefaultState, None, None, Rect(0, 0, 0, 0))
  }

  /** The constructors: the base one resolves "Default" against the raw
      configuration; the button classes then run `correct_data`, install
      their flags and resolve again. Construction succeeds exactly when
      "Default" is declared and drawable; the widget then shows "Default". */
  function Construct(kind: Kind, data: Config, producers: Producers): (r: Result<Widget, WidgetError>)
    ensures r.Ok? <==> DefaultState in data.states && Drawable(data.states[DefaultState])
    ensures r.Ok? ==> r.value.kind == kind && r.value.current == DefaultState
    ensures r.Ok? ==> r.value.style == Some(data.states[DefaultState])
    ensures r.Ok? ==>
      ResolveVisuals(data.states[DefaultState], Rect(0, 0, 0, 0), producers) == Ok(Visuals(r.value.texture, r.value.rect))
    ensures r.Ok? && kind == Base ==> r.value.data == data && r.value.flags == map[]
    ensures r.Ok? && kind != Base ==>
      Normalized(r.value.data) && Ok(r.value.data) == CorrectData(data) && r.value.flags == ButtonStartFlags
  {
    match UpdateVisuals(Initial(kind, data), producers)
    case Err(e) => Err(VisualFailure(e))
    case Ok(first) =>
      if kind == Base then Ok(first)
      else
        match CorrectData(data)
        case Err(e) => Err(ConfigFailure(e))
        case Ok(corrected) =>
          match UpdateVisuals(first.(data := corrected, flags := ButtonStartFlags), producers)
          case Err(e) => Err(VisualFailure(e))
          case Ok(second) => Ok(second)
  }

  /** The invariant of a constructed button: normalised configuration, every
      style entry drawable, both flags present. */
  ghost predicate Valid(w: Widget) {
    w.kind != Base ==>
      && Normalized(w.data)
      && (forall s :: s in w.data.states ==> Drawable(w.data.states[s]))
      && HoveredFlag in w.flags && PressedFlag in w.flags
  }

  /** A button built from well-typed style entries satisfies the invariant. */
  lemma ConstructValid(kind: Kind, data: Config, producers: Producers)
    requires Construct(kind, data, producers).Ok?
    requires forall s :: s in data.states ==> WellTyped(data.states[s])
    ensures Valid(Construct(kind, data, producers).value)
  {
    if kind != Base {
      MergeDefaultsDrawable(data.states);
    }
  }

  /** A valid button never fails to update, and stays valid. */
  lemma UpdateValid(w: Widget, input: Input, producers: Producers)
    requires w.kind != Base && Valid(w)
    ensures Update(w, input, producers).Ok?
    ensures Valid(Update(w, input, producers).value)
  {
    ResolvedStateDeclared(w.data, FrameFlags(w, input));
  }

  /** The momentary button does not release when the pointer leaves: a press
      made on the widget is still set, and the resolution still sees it,
      whatever the button level while the pointer is outside. */
  lemma ButtonKeepsPressOffWidget(w: Widget, input: Input, producers: Producers)
    requires w.kind == Button && Valid(w)
    requires w.flags[PressedFlag] == 1
    requires !Contains(w.rect, input.px, input.py)
    ensures Update(w, input, producers).Ok?
    ensures Update(w, input, producers).value.flags[PressedFlag] == 1
    ensures Update(w, input, producers).value.flags[HoveredFlag] == 0
  {
    UpdateValid(w, input, producers);
  }
}
