/** State resolution (`BaseWidget.update`): a first-match priority scan over
    the composite state names of "StateOrder". */
module StateMachine {
  import opened Wrappers
  import Strings

  /** Condition flags, e.g. "Hovered" and "Pressed", as 0/1 integers. */
  type Flags = map<string, int>

  const Separator: char := '&'
  const DefaultState: string := "Default"

  /** `flags.get(name, 0)`. */
  function FlagValue(flags: Flags, name: string): int {
    if name in flags then flags[name] else 0
  }

  /** A sub-condition holds when it is the literal "Default" (never tested)
      or its flag equals 1. */
  predicate Holds(flags: Flags, condition: string) {
    condition == DefaultState || FlagValue(flags, condition) == 1
  }

  /** A composite name matches when every one of its '&'-separated
      sub-conditions holds. */
  predicate Matches(flags: Flags, entry: string) {
    var conditions := Strings.Split(entry, Separator);
    forall i :: 0 <= i < |conditions| ==> Holds(flags, conditions[i])
  }

  /** The declarative meaning of resolution: `r` is the earliest matching
      entry of `order`, or "Default" when no entry matches. */
  ghost predicate IsFirstMatch(flags: Flags, order: seq<string>, r: string) {
    || (exists k :: 0 <= k < |order| && order[k] == r && Matches(flags, order[k])
                    && forall j :: 0 <= j < k ==> !Matches(flags, order[j]))
    || (r == DefaultState && forall j :: 0 <= j < |order| ==> !Matches(flags, order[j]))
  }

  /** Index of the first matching entry at or after `from`, or `|order|`. */
  function FirstMatchIndex(flags: Flags, order: seq<string>, from: nat): (k: nat)
    requires from <= |order|
    ensures from <= k <= |order|
    ensures k < |order| ==> Matches(flags, order[k])
    ensures forall j :: from <= j < k ==> !Matches(flags, order[j])
    decreases |order| - from
  {
    if from == |order| then from
    else if Matches(flags, order[from]) then from
    else FirstMatchIndex(flags, order, from + 1)
  }

  /** The `for ... else` loop of `update` over a present "StateOrder". */
  function ResolveIn(flags: Flags, order: seq<string>): (r: string)
    ensures IsFirstMatch(flags, order, r)
    ensures r in order || r == DefaultState
  {
    var k := FirstMatchIndex(flags, order, 0);
    if k < |order| then order[k] else DefaultState
  }

  /** Resolution with `data.get("StateOrder", ["Default"])`: an absent order
      always resolves to "Default". */
  function Resolve(flags: Flags, order: Option<seq<string>>): (r: string)
    ensures order.None? ==> r == DefaultState
    ensures order.Some? ==> IsFirstMatch(flags, order.value, r)
    ensures r == DefaultState || (order.Some? && r in order.value)
  {
    ResolveIn(flags, order.GetOr([DefaultState]))
  }

  /** Any result meeting the first-match description is the one computed. */
  lemma FirstMatchIsResolved(flags: Flags, order: seq<string>, r: string)
    requires IsFirstMatch(flags, order, r)
    ensures r == ResolveIn(flags, order)
  {
    var i := FirstMatchIndex(flags, order, 0);
    if !(r == DefaultState && forall j :: 0 <= j < |order| ==> !Matches(flags, order[j])) {
      var k :| 0 <= k < |order| && order[k] == r && Matches(flags, order[k])
               && forall j :: 0 <= j < k ==> !Matches(flags, order[j]);
      assert i == k;
    }
  }

  /** Resolution is exactly the first-match rule, in both directions. */
  lemma ResolveCharacterized(flags: Flags, order: seq<string>, r: string)
    ensures r == ResolveIn(flags, order) <==> IsFirstMatch(flags, order, r)
  {
    if IsFirstMatch(flags, order, r) {
      FirstMatchIsResolved(flags, order, r);
    }
  }

  /** No entry before the resolved one matches, and a matching entry caps the
      position of the result: the scan is by priority, not by specificity. */
  lemma ResolvePriority(flags: Flags, order: seq<string>, k: nat)
    requires k < |order|
    requires Matches(flags, order[k])
    ensures ResolveIn(flags, order) in order[..k + 1]
  {
    var i := FirstMatchIndex(flags, order, 0);
    assert i <= k;
    assert order[..k + 1][i] == order[i];
  }

  /** A name without '&' is a single condition. */
  lemma MatchesSingle(flags: Flags, name: string)
    requires Separator !in name
    ensures Matches(flags, name) <==> Holds(flags, name)
  {
    Strings.SplitJoin([name], Separator);
  }

  /** The definition of `Matches` restated in the loop's own phrasing: every
      '&'-piece other than "Default" has flag 1 (an absent flag counts as 0).
      The content of matching comes from `MatchesSingle` and `MatchesPair`. */
  lemma MatchesAllPieces(flags: Flags, entry: string)
    ensures Matches(flags, entry)
        <==> forall c :: c in Strings.Split(entry, Separator) && c != DefaultState ==> FlagValue(flags, c) == 1
  {
  }

  /** "a&b" matches exactly when both `a` and `b` hold. */
  lemma MatchesPair(flags: Flags, a: string, b: string)
    requires Separator !in a && Separator !in b
    ensures Matches(flags, a + [Separator] + b) <==> Holds(flags, a) && Holds(flags, b)
  {
    Strings.SplitJoin([a, b], Separator);
    assert Strings.Join([a, b], Separator) == a + [Separator] + b;
  }

  /** The full table of the four-entry priority order `[p&h, p, h, "Default"]`
      over two plain conditions: both set gives the composite, otherwise `p`
      outranks `h`, and nothing set falls back to "Default". */
  lemma ResolveFourEntryOrder(flags: Flags, p: string, h: string)
    requires Separator !in p && Separator !in h
    requires p != DefaultState && h != DefaultState
    ensures ResolveIn(flags, [p + [Separator] + h, p, h, DefaultState])
         == if FlagValue(flags, p) == 1 && FlagValue(flags, h) == 1 then p + [Separator] + h
            else if FlagValue(flags, p) == 1 then p
            else if FlagValue(flags, h) == 1 then h
            else DefaultState
  {
    var order := [p + [Separator] + h, p, h, DefaultState];
    MatchesPair(flags, p, h);
    MatchesSingle(flags, p);
    MatchesSingle(flags, h);
    MatchesSingle(flags, DefaultState);
    assert Matches(flags, order[3]);
    assert FirstMatchIndex(flags, order, 3) == 3;
    if FlagValue(flags, p) == 1 && FlagValue(flags, h) == 1 {
      assert FirstMatchIndex(flags, order, 0) == 0;
    } else if FlagValue(flags, p) == 1 {
      assert FirstMatchIndex(flags, order, 1) == 1;
    } else if FlagValue(flags, h) == 1 {
      assert FirstMatchIndex(flags, order, 2) == 2;
    } else {
      assert FirstMatchIndex(flags, order, 2) == 3;
    }
  }
}
