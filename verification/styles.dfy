/** Style entries and their visual resolution (`BaseWidget._resolve` and
    `BaseWidget._update_visuals`), and the one-level dictionary merge used to
    fill every state's entry from "Default". */
module Styles {
  import opened Wrappers

  const PosKey: string := "Pos"
  const TextureKey: string := "Texture"

  /** A zero-argument position producer is named by an id; the value it yields
      at the moment of resolution is supplied by the caller in `Producers`. */
  type ProducerId = nat
  type Producers = ProducerId -> int

  /** One component of "Pos": a literal coordinate or a callable. */
  datatype Coord = Literal(value: int) | Computed(producer: ProducerId)

  /** An opaque drawable surface with its natural size. */
  datatype Texture = Texture(id: nat, width: nat, height: nat)

  /** The values a style entry can hold: the "Pos" pair, a surface for
      "Texture", Python's None, and anything else, passed through untouched. */
  datatype Value =
    | PosValue(x: Coord, y: Coord)
    | TextureValue(texture: Texture)
    | NoneValue
    | Opaque(id: nat)

  /** A style dictionary: key to value. */
  type StyleEntry = map<string, Value>

  /** A pygame rectangle: top-left corner and size. */
  datatype Rect = Rect(x: int, y: int, width: int, height: int)

  /** `_resolve`: call the value if it is callable, else use it as it is. */
  function ResolveCoord(c: Coord, producers: Producers): (v: int)
    ensures c.Literal? ==> v == c.value
    ensures c.Computed? ==> v == producers(c.producer)
  {
    match c
    case Literal(v) => v
    case Computed(p) => producers(p)
  }

  /** The keys the visual code reads hold values of the right shape whenever
      they are present. */
  predicate WellTyped(e: StyleEntry) {
    && (PosKey in e ==> e[PosKey].PosValue?)
    && (TextureKey in e ==> e[TextureKey].TextureValue? || e[TextureKey].NoneValue?)
  }

  /** An entry `_update_visuals` can use without raising. */
  predicate Drawable(e: StyleEntry) {
    WellTyped(e) && PosKey in e
  }

  /** Python's `base | own`: the union of the keys, `own` winning on conflict. */
  function Merge(base: StyleEntry, own: StyleEntry): (m: StyleEntry)
    ensures m.Keys == base.Keys + own.Keys
    ensures forall k :: k in own ==> m[k] == own[k]
    ensures forall k :: k in base && k !in own ==> m[k] == base[k]
  {
    base + own
  }

  /** Merging the same base twice is the same as merging it once. */
  lemma MergeTwice(base: StyleEntry, own: StyleEntry)
    ensures Merge(base, Merge(base, own)) == Merge(base, own)
  {
  }

  /** A drawable base stays drawable under a well-typed override. */
  lemma MergeDrawable(base: StyleEntry, own: StyleEntry)
    requires Drawable(base)
    requires WellTyped(own)
    ensures Drawable(Merge(base, own))
  {
  }

  /** Why `_update_visuals` can raise on an entry. */
  datatype VisualError =
    | UnknownState(name: string)   // `States[current]` is a KeyError
    | BadPos                        // "Pos" missing or not a pair
    | BadTexture                    // "Texture" holds something that is not a surface

  /** What `_update_visuals` writes besides the style: texture and rect. */
  datatype Visuals = Visuals(texture: Option<Texture>, rect: Rect)

  /** `style.get("Texture")` on a well-typed entry: absent and None both mean no texture. */
  function TextureOf(e: StyleEntry): Option<Texture> {
    if TextureKey in e && e[TextureKey].TextureValue? then Some(e[TextureKey].texture) else None
  }

  /** `_update_visuals` for one entry, given the widget's previous rect. The
      position is resolved first, so a bad "Pos" is reported before a bad
      "Texture". With a texture the rect becomes the texture's size placed at
      the position; without one only the top-left moves. */
  function ResolveVisuals(e: StyleEntry, rect: Rect, producers: Producers): (r: Result<Visuals, VisualError>)
    ensures r.Ok? <==> Drawable(e)
    ensures r.Err? ==> (r.error == BadPos <==> !(PosKey in e && e[PosKey].PosValue?))
    ensures r.Err? ==> !r.error.UnknownState?
    ensures r.Ok? ==>
      && r.value.texture == TextureOf(e)
      && r.value.rect.x == ResolveCoord(e[PosKey].x, producers)
      && r.value.rect.y == ResolveCoord(e[PosKey].y, producers)
      && (r.value.texture.Some? ==>
            r.value.rect.width == r.value.texture.value.width && r.value.rect.height == r.value.texture.value.height)
      && (r.value.texture.None? ==>
            r.value.rect.width == rect.width && r.value.rect.height == rect.height)
  {
    if PosKey !in e || !e[PosKey].PosValue? then Err(BadPos)
    else
      var x := ResolveCoord(e[PosKey].x, producers);
      var y := ResolveCoord(e[PosKey].y, producers);
      if TextureKey in e && e[TextureKey].TextureValue? then
        var t := e[TextureKey].texture;
        Ok(Visuals(Some(t), Rect(x, y, t.width, t.height)))
      else if TextureKey in e && !e[TextureKey].NoneValue? then Err(BadTexture)
      else Ok(Visuals(None, rect.(x := x, y := y)))
  }

  /** pygame's `Rect.collidepoint`: half-open containment. */
  predicate Contains(r: Rect, px: int, py: int): (inside: bool)
    ensures inside ==> r.width > 0 && r.height > 0
    ensures inside ==> r.x <= px && r.y <= py
  {
    r.x <= px < r.x + r.width && r.y <= py < r.y + r.height
  }
}
