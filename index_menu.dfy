/**
 * A bounded index that clamps on assignment and steps with or without
 * wrapping, and the menus built on it: a list of item texts whose
 * selection always names an item, carrying either a sub-menu or two
 * payload values per item.
 */
module IndexMenu {
  import opened MenuRules

  /** One step up: from the top the index wraps to the bottom, or stays. */
  function StepUp(idx: int, lo: int, hi: int, wrap: bool): (r: int)
    ensures lo <= idx <= hi ==> lo <= r <= hi
  {
    if idx == hi then (if wrap then lo else hi) else idx + 1
  }

  /** One step down: from the bottom the index wraps to the top, or stays. */
  function StepDown(idx: int, lo: int, hi: int, wrap: bool): (r: int)
    ensures lo <= idx <= hi ==> lo <= r <= hi
  {
    if idx == lo then (if wrap then hi else lo) else idx - 1
  }

  /** A step down undoes a step up, unless the step up was stuck at the top. */
  lemma StepDownUndoesStepUp(idx: int, lo: int, hi: int, wrap: bool)
    requires lo <= idx <= hi && (wrap || idx < hi)
    ensures StepDown(StepUp(idx, lo, hi, wrap), lo, hi, wrap) == idx
  {
  }

  /** A step up undoes a step down, unless the step down was stuck at the bottom. */
  lemma StepUpUndoesStepDown(idx: int, lo: int, hi: int, wrap: bool)
    requires lo <= idx <= hi && (wrap || lo < idx)
    ensures StepUp(StepDown(idx, lo, hi, wrap), lo, hi, wrap) == idx
  {
  }

  /** `k` steps up in a row. */
  function StepsUp(idx: int, lo: int, hi: int, wrap: bool, k: nat): int
  {
    if k == 0 then idx else StepUp(StepsUp(idx, lo, hi, wrap, k - 1), lo, hi, wrap)
  }

  /** Below the top, `k` steps up add `k`. */
  lemma {:induction false} StepsUpClimb(idx: int, lo: int, hi: int, wrap: bool, k: nat)
    requires idx + k <= hi
    ensures StepsUp(idx, lo, hi, wrap, k) == idx + k
  {
    if k > 0 {
      StepsUpClimb(idx, lo, hi, wrap, k - 1);
    }
  }

  lemma {:induction false} StepsUpCompose(idx: int, lo: int, hi: int, wrap: bool, a: nat, b: nat)
    ensures StepsUp(idx, lo, hi, wrap, a + b) == StepsUp(StepsUp(idx, lo, hi, wrap, a), lo, hi, wrap, b)
  {
    if b > 0 {
      StepsUpCompose(idx, lo, hi, wrap, a, b - 1);
    }
  }

  /**
   * With wrapping, as many steps up as the range has places come back to
   * the start: up to the top, round to the bottom, and up again.
   */
  lemma StepsUpFullCircle(idx: int, lo: int, hi: int)
    requires lo <= idx <= hi
    ensures StepsUp(idx, lo, hi, true, hi - lo + 1) == idx
  {
    StepsUpClimb(idx, lo, hi, true, hi - idx);
    StepsUpCompose(idx, lo, hi, true, hi - idx, 1);
    StepsUpClimb(lo, lo, hi, true, idx - lo);
    StepsUpCompose(idx, lo, hi, true, hi - idx + 1, idx - lo);
  }

  /** An index kept within `[min, max]`. */
  class IndexInRange {
    var idx: int
    var min: int
    var max: int
    var wrap: bool

    ghost predicate Valid()
      reads this
    {
      min <= idx <= max
    }

    /** The default range: `[0, 1]`, wrapping, at 0. */
    constructor ()
      ensures min == 0 && max == 1 && wrap && idx == 0
      ensures Valid()
    {
      min := 0;
      max := 1;
      wrap := true;
      idx := 0;
    }

    constructor Within(newMin: int, newMax: int, newIndex: int, newWrap: bool)
      ensures min == newMin && max == newMax && wrap == newWrap
      ensures idx == Clamp(newIndex, newMin, newMax)
      ensures newMin <= newMax ==> Valid()
    {
      min := newMin;
      max := newMax;
      wrap := newWrap;
      idx := Clamp(newIndex, newMin, newMax);
    }

    /** Assign an index, clamped into the range. */
    method Set(newIndex: int)
      modifies this`idx
      ensures idx == Clamp(newIndex, min, max)
      ensures min <= max ==> Valid()
    {
      if newIndex > max {
        idx := max;
      } else if newIndex < min {
        idx := min;
      } else {
        idx := newIndex;
      }
    }

    method SetRange(newMin: int, newMax: int, newIndex: int, newWrap: bool)
      modifies this
      ensures min == newMin && max == newMax && wrap == newWrap
      ensures idx == Clamp(newIndex, newMin, newMax)
      ensures newMin <= newMax ==> Valid()
    {
      min := newMin;
      max := newMax;
      wrap := newWrap;
      Set(newIndex);
    }

    /** Move the top of the range; the index is not re-clamped. */
    method SetMax(newMax: int)
      modifies this`max
      ensures max == newMax && idx == old(idx)
      ensures Valid() <==> min <= idx <= newMax
    {
      max := newMax;
    }

    method Increment()
      modifies this`idx
      ensures idx == StepUp(old(idx), min, max, wrap)
      ensures old(Valid()) ==> Valid()
    {
      if idx == max {
        idx := if wrap then min else max;
      } else {
        idx := idx + 1;
      }
    }

    method Decrement()
      modifies this`idx
      ensures idx == StepDown(old(idx), min, max, wrap)
      ensures old(Valid()) ==> Valid()
    {
      if idx == min {
        idx := if wrap then max else min;
      } else {
        idx := idx - 1;
      }
    }
  }

  datatype MenuKind = MenuOfMenus | PayloadMenu

  /** The text every payload menu starts with, as its item 0. */
  const CancelText: string := "Cancel"

  /**
   * A menu: item texts and a wrapping selection over them. A menu of menus
   * holds a sub-menu per item; a payload menu two payload values per item,
   * with a "Cancel" item carrying (0, 0) first.
   */
  class Menu {
    const kind: MenuKind
    var title: string
    const selected: IndexInRange
    var text: seq<string>
    var submenus: seq<Menu>
    var payload1: seq<int>
    var payload2: seq<int>

    /** The selection spans the items (or is 0 while there are none) and the lists run in parallel. */
    ghost predicate Valid()
      reads this, selected
    {
      selected.Valid() && selected.min == 0 && selected.wrap
      && selected.max == (if |text| == 0 then 0 else |text| - 1)
      && (kind == MenuOfMenus ==> |submenus| == |text|)
      && (kind == PayloadMenu ==>
            |payload1| == |text| && |payload2| == |text|
            && |text| >= 1 && text[0] == CancelText && payload1[0] == 0 && payload2[0] == 0)
    }

    constructor OfMenus()
      ensures kind == MenuOfMenus && title == "" && text == [] && submenus == []
      ensures fresh(selected) && selected.idx == 0
      ensures Valid()
    {
      kind := MenuOfMenus;
      title := "";
      selected := new IndexInRange.Within(0, 0, 0, true);
      text := [];
      submenus := [];
      payload1 := [];
      payload2 := [];
    }

    constructor OfPayloads()
      ensures kind == PayloadMenu && title == "" && text == [CancelText]
      ensures payload1 == [0] && payload2 == [0]
      ensures fresh(selected) && selected.idx == 0
      ensures Valid()
    {
      kind := PayloadMenu;
      title := "";
      selected := new IndexInRange.Within(0, 0, 0, true);
      text := [CancelText];
      submenus := [];
      payload1 := [0];
      payload2 := [0];
    }

    /** Select an item by number, clamped to the items there are. */
    method Select(n: int)
      requires Valid()
      modifies selected`idx
      ensures selected.idx == Clamp(n, 0, selected.max)
      ensures Valid()
    {
      selected.Set(n);
    }

    /** The next item, wrapping from the last to the first. */
    method Next()
      requires Valid()
      modifies selected`idx
      ensures selected.idx == StepUp(old(selected.idx), 0, selected.max, true)
      ensures Valid()
    {
      selected.Increment();
    }

    /** The previous item, wrapping from the first to the last. */
    method Previous()
      requires Valid()
      modifies selected`idx
      ensures selected.idx == StepDown(old(selected.idx), 0, selected.max, true)
      ensures Valid()
    {
      selected.Decrement();
    }

    /** Append an item text and extend the selection range to it. */
    method AddText(t: string)
      requires selected.Valid() && selected.min == 0
      requires selected.max == (if |text| == 0 then 0 else |text| - 1)
      modifies this`text, selected`max
      ensures text == old(text) + [t]
      ensures selected.max == |text| - 1
      ensures selected.Valid() && selected.idx == old(selected.idx)
    {
      text := text + [t];
      selected.SetMax(|text| - 1);
    }

    /** Add a sub-menu, listed under its title. */
    method AddSubmenu(menu: Menu)
      requires kind == MenuOfMenus && Valid()
      modifies this`text, this`submenus, selected`max
      ensures text == old(text) + [old(menu.title)] && submenus == old(submenus) + [menu]
      ensures selected.idx == old(selected.idx)
      ensures Valid()
    {
      AddText(menu.title);
      submenus := submenus + [menu];
    }

    /** Add an item carrying two payload values. */
    method AddPayloadItem(t: string, p1: int, p2: int)
      requires kind == PayloadMenu && Valid()
      modifies this`text, this`payload1, this`payload2, selected`max
      ensures text == old(text) + [t]
      ensures payload1 == old(payload1) + [p1] && payload2 == old(payload2) + [p2]
      ensures selected.idx == old(selected.idx)
      ensures Valid()
    {
      AddText(t);
      payload1 := payload1 + [p1];
      payload2 := payload2 + [p2];
    }

    /** The selected item's number, always one of the items. */
    function SelectedIndex(): (i: int)
      requires Valid() && |text| > 0
      reads this, selected
      ensures 0 <= i < |text|
    {
      selected.idx
    }

    function SelectedString(): (s: string)
      requires Valid() && |text| > 0
      reads this, selected
      ensures s in text
    {
      text[SelectedIndex()]
    }

    function SelectedMenu(): (m: Menu)
      requires kind == MenuOfMenus && Valid() && |text| > 0
      reads this, selected
      ensures m in submenus
    {
      submenus[SelectedIndex()]
    }

    function SelectedPayload1(): (p: int)
      requires kind == PayloadMenu && Valid()
      reads this, selected
      ensures p in payload1
      ensures SelectedIndex() == 0 ==> p == 0
    {
      payload1[SelectedIndex()]
    }

    function SelectedPayload2(): (p: int)
      requires kind == PayloadMenu && Valid()
      reads this, selected
      ensures p in payload2
      ensures SelectedIndex() == 0 ==> p == 0
    {
      payload2[SelectedIndex()]
    }
  }
}
