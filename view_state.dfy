/** The App component's state (filter text, selected codes, visible-row cursor),
    its event handlers as one transition function, and the component itself as
    an object whose methods perform those transitions in place. */
module ViewState {
  import opened Selection
  import opened Countries
  import opened Text

  /** A snapshot of the three state cells. */
  datatype State = State(filter: string, selected: seq<Code>, visibleCount: nat)

  /** The state the component starts in: an empty filter, which filters nothing
      out, no selection, and 10 rows. */
  function Initial(): (s: State)
    ensures s.filter == "" && forall all :: FilterCountries(all, s.filter) == all
    ensures s.selected == [] && s.visibleCount == PageSize
  {
    State("", [], PageSize)
  }

  /** The user events the handlers react to. A chip's delete button passes the
      chip's entry, which is None for a code missing from the filtered list. */
  datatype Event =
    | Typed(text: string)
    | RowClicked(code: Code)
    | ChipDeleted(chip: Option<Country>)
    | ShowMoreClicked

  /** One handler run as a single synchronous transition. */
  function Step(s: State, e: Event): (r: State)
    ensures r.filter == (if e.Typed? then e.text else s.filter)
    ensures r.visibleCount == s.visibleCount + (if e.ShowMoreClicked? then PageSize else 0)
    ensures e.RowClicked? ==> r.selected == Toggle(s.selected, e.code)
    ensures e.ChipDeleted? && e.chip.Some? ==> r.selected == Without(s.selected, e.chip.value.code)
    ensures !e.RowClicked? && !(e.ChipDeleted? && e.chip.Some?) ==> r.selected == s.selected
  {
    match e
    case Typed(text) => s.(filter := text)
    case RowClicked(code) => s.(selected := Toggle(s.selected, code))
    case ChipDeleted(chip) =>
      (match chip
       case Some(c) => s.(selected := Without(s.selected, c.code))
       case None => s)
    case ShowMoreClicked => s.(visibleCount := s.visibleCount + PageSize)
  }

  /** Events handled one after another. */
  function Run(s: State, events: seq<Event>): State
    decreases |events|
  {
    if events == [] then s else Run(Step(s, events[0]), events[1..])
  }

  /** How many "show more" clicks a sequence of events holds. */
  function ShowMoreClicks(events: seq<Event>): nat {
    if events == [] then 0
    else (if events[0].ShowMoreClicked? then 1 else 0) + ShowMoreClicks(events[1..])
  }

  /** Every handler keeps the selection duplicate-free. */
  lemma StepKeepsNoDuplicates(s: State, e: Event)
    requires NoDuplicates(s.selected)
    ensures NoDuplicates(Step(s, e).selected)
  {
    match e
    case RowClicked(code) => ToggleNoDuplicates(s.selected, code);
    case ChipDeleted(chip) =>
      if chip.Some? { WithoutNoDuplicates(s.selected, chip.value.code); }
    case _ =>
  }

  lemma {:induction false} RunKeepsNoDuplicates(s: State, events: seq<Event>)
    requires NoDuplicates(s.selected)
    ensures NoDuplicates(Run(s, events).selected)
    decreases |events|
  {
    if events != [] {
      StepKeepsNoDuplicates(s, events[0]);
      RunKeepsNoDuplicates(Step(s, events[0]), events[1..]);
    }
  }

  lemma {:induction false} RunVisibleCount(s: State, events: seq<Event>)
    ensures Run(s, events).visibleCount == s.visibleCount + PageSize * ShowMoreClicks(events)
    decreases |events|
  {
    if events != [] {
      RunVisibleCount(Step(s, events[0]), events[1..]);
    }
  }

  /** Every state reachable from the initial one has a duplicate-free selection
      and a cursor of exactly 10 plus 10 per "show more" click. */
  lemma Reachable(events: seq<Event>)
    ensures NoDuplicates(Run(Initial(), events).selected)
    ensures Run(Initial(), events).visibleCount == PageSize + PageSize * ShowMoreClicks(events)
  {
    RunKeepsNoDuplicates(Initial(), events);
    RunVisibleCount(Initial(), events);
  }

  /** A selected code whose countries the filter hides gets a missing chip, and
      that chip's delete button passes no code: the code cannot be deselected
      through its chip, and the state stays as it is. */
  lemma HiddenSelectionCannotBeDeleted(s: State, all: seq<Country>, i: nat)
    requires i < |s.selected|
    requires forall c :: c in all && c.code == s.selected[i] ==> !Matches(c, s.filter)
    ensures Step(s, ChipDeleted(Chips(s.selected, FilterCountries(all, s.filter))[i])) == s
  {
    HiddenSelectionHasMissingChip(all, s.filter, s.selected, i);
  }

  /** A selected code carried by a fetched country that passes the filter has a
      resolved chip, and deleting that chip deselects exactly its code. */
  lemma ResolvedChipDeletes(s: State, all: seq<Country>, i: nat, k: nat)
    requires i < |s.selected|
    requires k < |all| && all[k].code == s.selected[i] && Matches(all[k], s.filter)
    ensures Chips(s.selected, FilterCountries(all, s.filter))[i].Some?
    ensures Step(s, ChipDeleted(Chips(s.selected, FilterCountries(all, s.filter))[i])).selected
      == Without(s.selected, s.selected[i])
  {
    assert all[k] in all;
  }

  /** Select TR, select US, remove TR: the selection goes through ["TR", "US"]
      to ["US"], and US's chip resolves. */
  lemma ScenarioSelectAndRemove()
    ensures Run(Initial(), [RowClicked("TR"), RowClicked("US")]).selected == ["TR", "US"]
    ensures Run(Initial(), [RowClicked("TR"), RowClicked("US"), ChipDeleted(Some(Country("TR", "Turkey")))]).selected == ["US"]
    ensures Chips(["US"], FilterCountries([Country("TR", "Turkey"), Country("US", "United States")], ""))
      == [Some(Country("US", "United States"))]
  {
  }

  lemma TurkeyMatchesTur(turkey: Country, filter: string)
    requires turkey == Country("TR", "Turkey") && filter == "tur"
    ensures Matches(turkey, filter)
  {
  }

  lemma NoLetterRNoTur(name: string, filter: string)
    requires 'r' !in name && filter == "tur"
    ensures !Contains(name, Lower(filter))
  {
    assert Lower(filter) == "tur";
    LacksLastLetter(name, Lower(filter));
  }

  lemma UnitedStatesDoesNotMatchTur(us: Country, filter: string)
    requires us == Country("US", "United States") && filter == "tur"
    ensures !Matches(us, filter)
  {
    assert 'r' !in Lower(us.name) by { LowerLacksLetter(us.name, 'r'); }
    NoLetterRNoTur(Lower(us.name), filter);
  }

  /** Two countries, the first matching the filter and the second not: only the
      first is kept. */
  lemma FilterKeepsFirstOfTwo(a: Country, b: Country, filter: string)
    requires filter != "" && Matches(a, filter) && !Matches(b, filter)
    ensures FilterCountries([a, b], filter) == [a]
  {
    var list := [a, b];
    assert list[0] == a && list[1..] == [b];
    assert [b][0] == b && [b][1..] == [];
    assert Keep([b], filter) == [];
    assert Keep(list, filter) == [a] + Keep([b], filter);
  }

  /** Typing "tur" keeps Turkey and drops United States; an empty filter keeps both. */
  lemma ScenarioFilter(turkey: Country, us: Country)
    requires turkey == Country("TR", "Turkey") && us == Country("US", "United States")
    ensures FilterCountries([turkey, us], "tur") == [turkey]
    ensures FilterCountries([turkey, us], "") == [turkey, us]
  {
    TurkeyMatchesTur(turkey, "tur");
    UnitedStatesDoesNotMatchTur(us, "tur");
    FilterKeepsFirstOfTwo(turkey, us, "tur");
  }

  /** 25 countries, no filter: 10 rows and the button at first, 20 rows and the
      button after one "show more" click, all 25 rows and no button after two. */
  lemma ScenarioPagination(all: seq<Country>)
    requires |all| == 25
    ensures var st := Run(Initial(), []);
      |Visible(FilterCountries(all, st.filter), st.visibleCount)| == 10 &&
      ShowMoreShown(FilterCountries(all, st.filter), st.visibleCount)
    ensures var st := Run(Initial(), [ShowMoreClicked]);
      |Visible(FilterCountries(all, st.filter), st.visibleCount)| == 20 &&
      ShowMoreShown(FilterCountries(all, st.filter), st.visibleCount)
    ensures var st := Run(Initial(), [ShowMoreClicked, ShowMoreClicked]);
      Visible(FilterCountries(all, st.filter), st.visibleCount) == all &&
      !ShowMoreShown(FilterCountries(all, st.filter), st.visibleCount)
  {
    assert [ShowMoreClicked][1..] == [];
    assert [ShowMoreClicked, ShowMoreClicked][1..] == [ShowMoreClicked];
  }

  /** The App component: three state cells updated in place by its handlers. */
  class App {
    var filter: string
    var selected: seq<Code>
    var visibleCount: nat

    /** The current snapshot. */
    function Snapshot(): State
      reads this
    {
      State(filter, selected, visibleCount)
    }

    /** What every reachable component state satisfies. */
    ghost predicate Valid()
      reads this
    {
      NoDuplicates(selected) && visibleCount >= PageSize && visibleCount % PageSize == 0
    }

    constructor ()
      ensures Snapshot() == Initial()
      ensures Valid()
    {
      filter := "";
      selected := [];
      visibleCount := PageSize;
    }

    /** The search field's `onChange`. */
    method SetFilter(text: string)
      requires Valid()
      modifies this
      ensures Snapshot() == Step(old(Snapshot()), Typed(text))
      ensures Valid()
    {
      filter := text;
    }

    /** `handleCountryClick`: toggle the clicked row's code. */
    method HandleCountryClick(code: Code)
      requires Valid()
      modifies this
      ensures Snapshot() == Step(old(Snapshot()), RowClicked(code))
      ensures Valid()
      ensures code in selected <==> code !in old(selected)
    {
      ToggleNoDuplicates(selected, code);
      selected := Toggle(selected, code);
    }

    /** `removeCountry`: deselect the code. */
    method RemoveCountry(code: Code)
      requires Valid()
      modifies this
      ensures selected == Without(old(selected), code)
      ensures filter == old(filter) && visibleCount == old(visibleCount)
      ensures Valid()
    {
      WithoutNoDuplicates(selected, code);
      selected := Without(selected, code);
    }

    /** A chip's delete button: `removeCountry(country?.code!)`, where a missing
        entry passes `undefined`, which no selected code equals. */
    method DeleteChip(chip: Option<Country>)
      requires Valid()
      modifies this
      ensures Snapshot() == Step(old(Snapshot()), ChipDeleted(chip))
      ensures Valid()
    {
      if chip.Some? {
        RemoveCountry(chip.value.code);
      }
    }

    /** The "show more" button's `onClick`. */
    method ShowMore()
      requires Valid()
      modifies this
      ensures Snapshot() == Step(old(Snapshot()), ShowMoreClicked)
      ensures Valid()
    {
      visibleCount := visibleCount + PageSize;
    }

    /** The render's derived values for the fetched list: the chips, the rows with
        their selected flags, and whether the "show more" button appears. */
    method Render(all: seq<Country>) returns (chips: seq<Option<Country>>, rows: seq<Country>, flags: seq<bool>, showMore: bool)
      ensures chips == Chips(selected, FilterCountries(all, filter))
      ensures rows == Visible(FilterCountries(all, filter), visibleCount)
      ensures |flags| == |rows| && forall i :: 0 <= i < |rows| ==> (flags[i] <==> rows[i].code in selected)
      ensures showMore <==> rows != FilterCountries(all, filter)
    {
      var filtered := FilterCountries(all, filter);
      chips := Chips(selected, filtered);
      rows := Visible(filtered, visibleCount);
      var sel := selected;
      flags := seq(|rows|, i requires 0 <= i < |rows| => rows[i].code in sel);
      showMore := ShowMoreShown(filtered, visibleCount);
    }
  }
}
