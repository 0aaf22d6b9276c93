/** `correct_data`, shared verbatim by ToggleButton and Button: default and
    filter "StateOrder", then merge "Default" into every entry of "States". */
module Normalization {
  import opened Wrappers
  import opened Styles
  import opened StateMachine

  const PressedFlag: string := "Pressed"
  const HoveredFlag: string := "Hovered"

  /** The order used when "StateOrder" is absent, most specific first. */
  const DefaultOrder: seq<string> :=
    [PressedFlag + [Separator] + HoveredFlag, PressedFlag, HoveredFlag, DefaultState]

  /** A widget's configuration dictionary: "States" and the optional "StateOrder". */
  datatype Config = Config(states: map<string, StyleEntry>, order: Option<seq<string>>)

  /** The merge reads `States["Default"]`, a KeyError when it is missing. */
  datatype ConfigError = MissingDefault

  /** `[s for s in order if s in declared]`: the declared entries, in their
      order and with their multiplicities; nothing else. */
  function KeepDeclared(order: seq<string>, declared: set<string>): (r: seq<string>)
    ensures forall i :: 0 <= i < |r| ==> r[i] in declared
    ensures forall s :: multiset(r)[s] == if s in declared then multiset(order)[s] else 0
    decreases |order|
  {
    if |order| == 0 then []
    else
      assert order == [order[0]] + order[1..];
      (if order[0] in declared then [order[0]] else []) + KeepDeclared(order[1..], declared)
  }

  /** `a` can be obtained from `b` by deleting elements (matched greedily,
      which loses no solutions). */
  ghost predicate IsSubsequence<T>(a: seq<T>, b: seq<T>)
    decreases |b|
  {
    if |a| == 0 then true
    else if |b| == 0 then false
    else if a[0] == b[0] then IsSubsequence(a[1..], b[1..])
    else IsSubsequence(a, b[1..])
  }

  /** Filtering keeps the relative order of what it keeps. */
  lemma {:induction false} KeepDeclaredSubsequence(order: seq<string>, declared: set<string>)
    ensures IsSubsequence(KeepDeclared(order, declared), order)
    decreases |order|
  {
    if |order| > 0 {
      var rest := KeepDeclared(order[1..], declared);
      KeepDeclaredSubsequence(order[1..], declared);
      if order[0] in declared {
        assert KeepDeclared(order, declared) == [order[0]] + rest;
        assert ([order[0]] + rest)[1..] == rest;
      } else {
        assert KeepDeclared(order, declared) == rest;
        assert |rest| > 0 ==> rest[0] != order[0];
      }
    }
  }

  /** An order whose entries are all declared passes the filter unchanged. */
  lemma {:induction false} KeepDeclaredFixed(order: seq<string>, declared: set<string>)
    requires forall i :: 0 <= i < |order| ==> order[i] in declared
    ensures KeepDeclared(order, declared) == order
    decreases |order|
  {
    if |order| > 0 {
      KeepDeclaredFixed(order[1..], declared);
      assert order == [order[0]] + order[1..];
    }
  }

  /** The "StateOrder" written back by `correct_data`: the requested order (or
      `DefaultOrder`) restricted to declared states, or `["Default"]` when
      nothing survives. */
  function NormalizeOrder(requested: Option<seq<string>>, declared: set<string>): (r: seq<string>)
    ensures |r| >= 1
    ensures r == [DefaultState] || IsSubsequence(r, requested.GetOr(DefaultOrder))
    ensures r == [DefaultState] || forall i :: 0 <= i < |r| ==> r[i] in declared
    ensures (forall s :: s in requested.GetOr(DefaultOrder) ==> s !in declared) ==> r == [DefaultState]
    ensures forall s :: s in requested.GetOr(DefaultOrder) && s in declared ==> s in r
    ensures (exists s :: s in requested.GetOr(DefaultOrder) && s in declared) ==>
      forall s :: multiset(r)[s] == if s in declared then multiset(requested.GetOr(DefaultOrder))[s] else 0
  {
    var kept := KeepDeclared(requested.GetOr(DefaultOrder), declared);
    KeepDeclaredSubsequence(requested.GetOr(DefaultOrder), declared);
    if kept == [] then
      assert forall s :: s in requested.GetOr(DefaultOrder) && s in declared ==> multiset(kept)[s] > 0;
      [DefaultState]
    else
      assert forall s :: s in requested.GetOr(DefaultOrder) && s in declared ==> multiset(kept)[s] > 0;
      kept
  }

  /** With "Default" and "Hovered" declared, the order
      `["Pressed", "Hovered", "Default"]` becomes `["Hovered", "Default"]`:
      the undeclared "Pressed" is dropped and the rest keep their order. */
  lemma NormalizeOrderExample()
    ensures NormalizeOrder(Some([PressedFlag, HoveredFlag, DefaultState]), {DefaultState, HoveredFlag})
         == [HoveredFlag, DefaultState]
  {
    var declared := {DefaultState, HoveredFlag};
    assert KeepDeclared([DefaultState], declared) == [DefaultState];
    assert KeepDeclared([HoveredFlag, DefaultState], declared) == [HoveredFlag, DefaultState];
  }

  /** An order that is `["Default"]` or wholly declared is its own
      normalisation. */
  lemma NormalizedOrderFixed(order: seq<string>, declared: set<string>)
    requires order == [DefaultState] || forall i :: 0 <= i < |order| ==> order[i] in declared
    requires |order| >= 1
    ensures NormalizeOrder(Some(order), declared) == order
  {
    var kept := KeepDeclared(order, declared);
    if order != [DefaultState] || DefaultState in declared {
      KeepDeclaredFixed(order, declared);
    } else {
      assert kept == [] + KeepDeclared([], declared);
    }
  }

  /** Normalising a normalised order changes nothing. */
  lemma NormalizeOrderIdempotent(requested: Option<seq<string>>, declared: set<string>)
    ensures NormalizeOrder(Some(NormalizeOrder(requested, declared)), declared)
         == NormalizeOrder(requested, declared)
  {
    NormalizedOrderFixed(NormalizeOrder(requested, declared), declared);
  }

  /** The merge loop of `correct_data`: every entry becomes `Default | entry`,
      always against the original "Default". An empty "States" runs no
      iteration and so raises nothing. */
  function MergeDefaults(states: map<string, StyleEntry>): (r: Result<map<string, StyleEntry>, ConfigError>)
    ensures r.Err? <==> DefaultState !in states && states != map[]
    ensures r.Ok? ==> r.value.Keys == states.Keys
    ensures r.Ok? && DefaultState in states ==> r.value[DefaultState] == states[DefaultState]
    ensures r.Ok? ==> forall s :: s in states ==>
      r.value[s].Keys == states[s].Keys + states[DefaultState].Keys
    ensures r.Ok? ==> forall s, k :: s in states && k in states[s] ==> r.value[s][k] == states[s][k]
    ensures r.Ok? ==> forall s, k :: s in states && k !in states[s] && k in states[DefaultState] ==>
      r.value[s][k] == states[DefaultState][k]
  {
    if states == map[] then Ok(states)
    else if DefaultState !in states then Err(MissingDefault)
    else
      var base := states[DefaultState];
      Ok(map s | s in states :: Merge(base, states[s]))
  }

  /** Merging twice gives the same table as merging once. */
  lemma MergeDefaultsIdempotent(states: map<string, StyleEntry>)
    requires MergeDefaults(states).Ok?
    ensures MergeDefaults(MergeDefaults(states).value) == MergeDefaults(states)
  {
    var once := MergeDefaults(states).value;
    if states != map[] {
      var base := states[DefaultState];
      assert once[DefaultState] == base;
      forall s | s in once
        ensures Merge(base, once[s]) == once[s]
      {
        MergeTwice(base, states[s]);
      }
      assert MergeDefaults(once).value == once;
    }
  }

  /** Merging a drawable "Default" into well-typed entries makes every entry
      drawable, so visual resolution cannot fail on any state. */
  lemma MergeDefaultsDrawable(states: map<string, StyleEntry>)
    requires DefaultState in states && Drawable(states[DefaultState])
    requires forall s :: s in states ==> WellTyped(states[s])
    ensures MergeDefaults(states).Ok?
    ensures forall s :: s in states ==> Drawable(MergeDefaults(states).value[s])
  {
    forall s | s in states
      ensures Drawable(MergeDefaults(states).value[s])
    {
      MergeDrawable(states[DefaultState], states[s]);
    }
  }

  /** What `correct_data` guarantees for resolution: an order is present and
      non-empty, "Default" is declared, and every entry is declared. */
  ghost predicate Normalized(c: Config) {
    && c.order.Some?
    && |c.order.value| >= 1
    && DefaultState in c.states
    && forall i :: 0 <= i < |c.order.value| ==> c.order.value[i] in c.states
  }

  /** `correct_data`. It fails only when "States" is non-empty without a
      "Default"; with "Default" declared the result is normalised. */
  function CorrectData(c: Config): (r: Result<Config, ConfigError>)
    ensures r.Err? <==> DefaultState !in c.states && c.states != map[]
    ensures r.Ok? ==> r.value.states.Keys == c.states.Keys
    ensures r.Ok? ==> MergeDefaults(c.states) == Ok(r.value.states)
    ensures r.Ok? ==> r.value.order == Some(NormalizeOrder(c.order, c.states.Keys))
    ensures DefaultState in c.states ==> r.Ok? && Normalized(r.value)
  {
    match MergeDefaults(c.states)
    case Err(e) => Err(e)
    case Ok(merged) => Ok(Config(merged, Some(NormalizeOrder(c.order, c.states.Keys))))
  }

  /** Running `correct_data` on its own output changes nothing, so a
      configuration dictionary shared by several widgets is safe. */
  lemma CorrectDataIdempotent(c: Config)
    requires CorrectData(c).Ok?
    ensures CorrectData(CorrectData(c).value) == CorrectData(c)
  {
    MergeDefaultsIdempotent(c.states);
    NormalizeOrderIdempotent(c.order, c.states.Keys);
  }

  /** After normalisation every state resolution can return is a key of
      "States", so the lookup in `_update_visuals` cannot fail. */
  lemma ResolvedStateDeclared(c: Config, flags: Flags)
    requires Normalized(c)
    ensures Resolve(flags, c.order) in c.states
  {
  }

  /** The default order's table for the two flags of the button variants. */
  lemma DefaultOrderTable(flags: Flags)
    ensures ResolveIn(flags, DefaultOrder)
         == if FlagValue(flags, PressedFlag) == 1 && FlagValue(flags, HoveredFlag) == 1 then DefaultOrder[0]
            else if FlagValue(flags, PressedFlag) == 1 then PressedFlag
            else if FlagValue(flags, HoveredFlag) == 1 then HoveredFlag
            else DefaultState
  {
    ResolveFourEntryOrder(flags, PressedFlag, HoveredFlag);
  }
}
