/**
  The navigation selector (NavigationManager): which kind of radio aid is selected (VOR or
  ILS), which system of that kind, which display containers are switched on, and which
  system the frequency and OBS knobs act on. The aids' own floating-point geometry is not
  part of this model; only the integer selection state machine is.
*/
module Navigation {
  import opened Wrappers

  /** The two kinds of aid; selectedNavType 0 stands for VOR and 1 for ILS. */
  datatype NavKind = Vor | Ils

  /** One entry of a systems array, as UpdateActiveSystem sees it: Missing when the system
      or its display container is null, else the container's active flag. */
  datatype Display = Missing | Container(active: bool)

  /** The system a knob acts on: its kind and its index in that kind's array. */
  datatype Target = Target(kind: NavKind, index: int)

  // ---------------------------------------------------------------------------
  // Selection arithmetic

  /** ToggleNavigationType's new type: 1 after 0, and 0 after anything else. */
  function Toggled(navType: int): (t: int)
    ensures t == 0 || t == 1
    ensures t == 1 <==> navType == 0
  {
    if navType == 0 then 1 else 0
  }

  /** Toggling twice restores the type exactly when it was 0 or 1. */
  lemma ToggleTwiceRestores(navType: int)
    ensures Toggled(Toggled(navType)) == navType <==> navType == 0 || navType == 1
  {
  }

  /** Two facts about `%` by a positive divisor that CsRem's contract rests on. */
  lemma RemainderOfSmall(a: int, b: int)
    requires b > 0
    ensures 0 <= a < b ==> a % b == a
    ensures b % b == 0
  {
  }

  /** C#'s `%` on int: the remainder takes the sign of the dividend. */
  function CsRem(a: int, b: int): (r: int)
    requires b > 0
    ensures a >= 0 ==> 0 <= r < b
    ensures a < 0 ==> -b < r <= 0
    ensures 0 <= a < b ==> r == a
    ensures a == b ==> r == 0
  {
    RemainderOfSmall(a, b);
    if a >= 0 then a % b else -((-a) % b)
  }

  /** The length of the selected kind's array (a null array counts as empty). */
  function SelectedCount(navType: int, vorCount: int, ilsCount: int): int
  {
    if navType == 0 then vorCount else if navType == 1 then ilsCount else 0
  }

  /** NextNavigationSystem's new index: one on, wrapping at the selected array's length;
      unchanged when that array is empty. */
  function NextIndex(navType: int, index: int, vorCount: int, ilsCount: int): (next: int)
    ensures var n := SelectedCount(navType, vorCount, ilsCount);
      && (n <= 0 ==> next == index)
      && (n > 0 && index >= 0 ==> 0 <= next < n)
      && (n > 0 && 0 <= index < n - 1 ==> next == index + 1)
      && (n > 0 && index == n - 1 ==> next == 0)
  {
    if navType == 0 && vorCount > 0 then CsRem(index + 1, vorCount)
    else if navType == 1 && ilsCount > 0 then CsRem(index + 1, ilsCount)
    else index
  }

  /** The index after pressing "next" k times, starting at `index`. */
  function NextTimes(navType: int, index: int, vorCount: int, ilsCount: int, k: nat): int
  {
    if k == 0 then index else NextIndex(navType, NextTimes(navType, index, vorCount, ilsCount, k - 1), vorCount, ilsCount)
  }

  /** Starting from the first system, k presses of "next" select system k for k < n and
      system 0 again at k = n: the index visits every system of the selected kind in order
      and comes back after n presses. */
  lemma {:induction false} NextVisitsEverySystem(navType: int, vorCount: int, ilsCount: int, k: nat)
    requires 0 < SelectedCount(navType, vorCount, ilsCount)
    requires k <= SelectedCount(navType, vorCount, ilsCount)
    ensures NextTimes(navType, 0, vorCount, ilsCount, k) == if k == SelectedCount(navType, vorCount, ilsCount) then 0 else k
  {
    if k > 0 {
      NextVisitsEverySystem(navType, vorCount, ilsCount, k - 1);
    }
  }

  // ---------------------------------------------------------------------------
  // Which displays are on

  /** One entry after UpdateActiveSystem: a present container gets the flag `on`. */
  function Refresh(d: Display, on: bool): Display
  {
    if d.Missing? then Missing else Container(on)
  }

  /** UpdateActiveSystem on one array: container i is switched on exactly when this array's
      kind is selected and i is the selected index; missing entries are skipped. */
  function Refreshed(displays: seq<Display>, kindSelected: bool, index: int): (r: seq<Display>)
    ensures |r| == |displays|
  {
    seq(|displays|, i requires 0 <= i < |displays| => Refresh(displays[i], kindSelected && i == index))
  }

  /** The number of containers switched on. */
  function CountActive(displays: seq<Display>): nat
  {
    if displays == [] then 0
    else CountActive(displays[..|displays| - 1]) + (if displays[|displays| - 1] == Container(true) then 1 else 0)
  }

  /** After a refresh, an array has one display on exactly when its kind is selected and the
      selected index names a present container; otherwise none. */
  lemma {:induction false} RefreshedCount(displays: seq<Display>, kindSelected: bool, index: int)
    ensures CountActive(Refreshed(displays, kindSelected, index)) ==
      if kindSelected && 0 <= index < |displays| && displays[index].Container? then 1 else 0
  {
    var r := Refreshed(displays, kindSelected, index);
    if displays != [] {
      var n := |displays| - 1;
      RefreshedCount(displays[..n], kindSelected, index);
      assert r[..n] == Refreshed(displays[..n], kindSelected, index);
    }
  }

  /** Across both arrays, at most one display is on after a refresh, and one is on exactly
      when the selected index names a present container of the selected kind. */
  lemma AtMostOneDisplayActive(vor: seq<Display>, ils: seq<Display>, navType: int, index: int)
    ensures var on := CountActive(Refreshed(vor, navType == 0, index)) + CountActive(Refreshed(ils, navType == 1, index));
      && on <= 1
      && (on == 1 <==>
            || (navType == 0 && 0 <= index < |vor| && vor[index].Container?)
            || (navType == 1 && 0 <= index < |ils| && ils[index].Container?))
  {
    RefreshedCount(vor, navType == 0, index);
    RefreshedCount(ils, navType == 1, index);
  }

  // ---------------------------------------------------------------------------
  // Which system the knobs act on

  /** AdjustFrequency's choice: the selected system when the selected array is non-empty
      and the index is below its length; otherwise no system is tuned. */
  function FrequencyTarget(navType: int, index: int, vorCount: int, ilsCount: int): (t: Option<Target>)
    ensures t.Some? <==> (navType == 0 || navType == 1) && 0 < SelectedCount(navType, vorCount, ilsCount) && index < SelectedCount(navType, vorCount, ilsCount)
    ensures t.Some? ==> t.value.index == index && (t.value.kind == Vor <==> navType == 0)
  {
    if navType == 0 && vorCount > 0 && index < vorCount then Some(Target(Vor, index))
    else if navType == 1 && ilsCount > 0 && index < ilsCount then Some(Target(Ils, index))
    else None
  }

  /** AdjustOBS's choice: only a VOR, under the same bounds as AdjustFrequency. */
  function ObsTarget(navType: int, index: int, vorCount: int): (t: Option<int>)
    ensures t.Some? <==> navType == 0 && 0 < vorCount && index < vorCount
    ensures t.Some? ==> t.value == index
  {
    if navType == 0 && vorCount > 0 && index < vorCount then Some(index) else None
  }

  /** The OBS knob acts on a system only when the frequency knob acts on that same system,
      and never on an ILS. */
  lemma ObsActsOnlyOnSelectedVor(navType: int, index: int, vorCount: int, ilsCount: int)
    ensures ObsTarget(navType, index, vorCount).Some? ==>
      FrequencyTarget(navType, index, vorCount, ilsCount) == Some(Target(Vor, ObsTarget(navType, index, vorCount).value))
    ensures navType == 1 ==> ObsTarget(navType, index, vorCount).None?
  {
  }

  /** Every display that is on after a refresh belongs to the system the frequency knob acts on. */
  lemma ActiveDisplayIsTuned(vor: seq<Display>, ils: seq<Display>, navType: int, index: int)
    ensures forall i | 0 <= i < |vor| :: Refreshed(vor, navType == 0, index)[i] == Container(true) ==>
      FrequencyTarget(navType, index, |vor|, |ils|) == Some(Target(Vor, i))
    ensures forall i | 0 <= i < |ils| :: Refreshed(ils, navType == 1, index)[i] == Container(true) ==>
      FrequencyTarget(navType, index, |vor|, |ils|) == Some(Target(Ils, i))
  {
  }

  /** UpdateUIDisplay's type caption. */
  function TypeLabel(navType: int): (caption: string)
    ensures caption == "VOR" <==> navType == 0
    ensures caption == "ILS" <==> navType != 0
  {
    if navType == 0 then "VOR" else "ILS"
  }

  /** After a toggle the caption names the other kind, and it names the kind of the system
      the frequency knob acts on. */
  lemma CaptionFollowsSelection(navType: int, index: int, vorCount: int, ilsCount: int)
    requires navType == 0 || navType == 1
    ensures TypeLabel(Toggled(navType)) != TypeLabel(navType)
    ensures FrequencyTarget(navType, index, vorCount, ilsCount).Some? ==>
      (TypeLabel(navType) == "VOR" <==> FrequencyTarget(navType, index, vorCount, ilsCount).value.kind == Vor)
  {
  }

  // ---------------------------------------------------------------------------
  // The selector object

  class NavigationManager {
    const vorSystems: array<Display>
    const ilsSystems: array<Display>
    var selectedNavType: int
    var selectedSystemIndex: int
    /** How many snapshots this client has sent out (RequestSerialization calls). */
    ghost var serializations: nat

    /** The selection invariant: a known type, a non-negative index, and an index inside the
        selected array whenever that array has any system. */
    ghost predicate Valid()
      reads this
    {
      && vorSystems != ilsSystems
      && (selectedNavType == 0 || selectedNavType == 1)
      && selectedSystemIndex >= 0
      && (SelectedCount(selectedNavType, vorSystems.Length, ilsSystems.Length) > 0 ==>
            selectedSystemIndex < SelectedCount(selectedNavType, vorSystems.Length, ilsSystems.Length))
    }

    /** Start: the first VOR is selected and the displays are refreshed. */
    constructor (vor: array<Display>, ils: array<Display>)
      requires vor != ils
      modifies vor, ils
      ensures Valid() && vorSystems == vor && ilsSystems == ils
      ensures selectedNavType == 0 && selectedSystemIndex == 0 && serializations == 0
      ensures vor[..] == Refreshed(old(vor[..]), true, 0)
      ensures ils[..] == Refreshed(old(ils[..]), false, 0)
    {
      vorSystems := vor;
      ilsSystems := ils;
      selectedNavType := 0;
      selectedSystemIndex := 0;
      serializations := 0;
      new;
      UpdateActiveSystem();
    }

    method ToggleNavigationType()
      requires Valid()
      modifies this, vorSystems, ilsSystems
      ensures Valid()
      ensures selectedNavType == Toggled(old(selectedNavType)) && selectedSystemIndex == 0
      ensures vorSystems[..] == Refreshed(old(vorSystems[..]), selectedNavType == 0, 0)
      ensures ilsSystems[..] == Refreshed(old(ilsSystems[..]), selectedNavType == 1, 0)
      ensures serializations == old(serializations) + 1
    {
      selectedNavType := if selectedNavType == 0 then 1 else 0;
      selectedSystemIndex := 0;
      serializations := serializations + 1;
      UpdateActiveSystem();
    }

    method NextNavigationSystem()
      requires Valid()
      modifies this, vorSystems, ilsSystems
      ensures Valid()
      ensures selectedNavType == old(selectedNavType)
      ensures selectedSystemIndex == NextIndex(selectedNavType, old(selectedSystemIndex), vorSystems.Length, ilsSystems.Length)
      ensures vorSystems[..] == Refreshed(old(vorSystems[..]), selectedNavType == 0, selectedSystemIndex)
      ensures ilsSystems[..] == Refreshed(old(ilsSystems[..]), selectedNavType == 1, selectedSystemIndex)
      ensures serializations == old(serializations) + 1
    {
      if selectedNavType == 0 && vorSystems.Length > 0 {
        selectedSystemIndex := CsRem(selectedSystemIndex + 1, vorSystems.Length);
      } else if selectedNavType == 1 && ilsSystems.Length > 0 {
        selectedSystemIndex := CsRem(selectedSystemIndex + 1, ilsSystems.Length);
      }
      serializations := serializations + 1;
      UpdateActiveSystem();
    }

    /** Switches every present container of both arrays to "selected kind and selected index". */
    method UpdateActiveSystem()
      requires vorSystems != ilsSystems
      modifies vorSystems, ilsSystems
      ensures vorSystems[..] == Refreshed(old(vorSystems[..]), selectedNavType == 0, selectedSystemIndex)
      ensures ilsSystems[..] == Refreshed(old(ilsSystems[..]), selectedNavType == 1, selectedSystemIndex)
    {
      for i := 0 to vorSystems.Length
        invariant forall k | 0 <= k < i :: vorSystems[k] == Refresh(old(vorSystems[k]), selectedNavType == 0 && k == selectedSystemIndex)
        invariant forall k | i <= k < vorSystems.Length :: vorSystems[k] == old(vorSystems[k])
        invariant ilsSystems[..] == old(ilsSystems[..])
      {
        if vorSystems[i].Container? {
          vorSystems[i] := Container(selectedNavType == 0 && i == selectedSystemIndex);
        }
      }
      for i := 0 to ilsSystems.Length
        invariant forall k | 0 <= k < i :: ilsSystems[k] == Refresh(old(ilsSystems[k]), selectedNavType == 1 && k == selectedSystemIndex)
        invariant forall k | i <= k < ilsSystems.Length :: ilsSystems[k] == old(ilsSystems[k])
        invariant vorSystems[..] == Refreshed(old(vorSystems[..]), selectedNavType == 0, selectedSystemIndex)
      {
        if ilsSystems[i].Container? {
          ilsSystems[i] := Container(selectedNavType == 1 && i == selectedSystemIndex);
        }
      }
    }
  }
}
