/** The views the App component derives from the fetched country list and its
    state: the filtered list, the selected-chip list, the visible prefix and the
    "show more" condition. All of them are pure. */
module Countries {
  import opened Text
  import opened Subsequence
  import opened Selection

  datatype Option<T> = None | Some(value: T)

  /** A country record as the countries query returns it. */
  datatype Country = Country(code: Code, name: string)

  /** Number of rows a "show more" click adds, and the initial number of rows. */
  const PageSize: nat := 10

  /** The filter predicate: the lower-cased name contains the lower-cased filter. */
  predicate Matches(c: Country, filter: string)
    ensures Matches(c, filter) <==> exists i :: OccursAt(Lower(c.name), Lower(filter), i)
    ensures filter == "" ==> Matches(c, filter)
  {
    assert filter == "" ==> OccursAt(Lower(c.name), Lower(filter), 0);
    Contains(Lower(c.name), Lower(filter))
  }

  /** `countries.filter((country) => Matches(country, filter))`, in source order. */
  function Keep(all: seq<Country>, filter: string): (r: seq<Country>)
    ensures |r| <= |all|
    ensures forall c :: c in r ==> c in all && Matches(c, filter)
    ensures forall c :: c in all && Matches(c, filter) ==> c in r
  {
    if all == [] then []
    else if Matches(all[0], filter) then [all[0]] + Keep(all[1..], filter)
    else Keep(all[1..], filter)
  }

  /** The list the component renders: filtered only when the filter is a non-empty
      string (the `if (filter)` guard). */
  function FilterCountries(all: seq<Country>, filter: string): (r: seq<Country>)
    ensures filter == "" ==> r == all
    ensures forall c :: c in r <==> c in all && Matches(c, filter)
  {
    if filter == "" then all else Keep(all, filter)
  }

  /** Filtering keeps the source order: the result is a subsequence of the list. */
  lemma {:induction false} KeepIsSubsequence(all: seq<Country>, filter: string)
    ensures IsSubseq(Keep(all, filter), all)
  {
    if all != [] {
      KeepIsSubsequence(all[1..], filter);
      var rest := Keep(all[1..], filter);
      if Matches(all[0], filter) {
        assert ([all[0]] + rest)[1..] == rest;
      } else if rest != [] {
        assert IsSubseq(rest, all[1..]);
      }
    }
  }

  /** The filtered list is an order-preserving subsequence of the source list. */
  lemma FilterIsSubsequence(all: seq<Country>, filter: string)
    ensures IsSubseq(FilterCountries(all, filter), all)
  {
    if filter == "" {
      SubseqReflexive(all);
    } else {
      KeepIsSubsequence(all, filter);
    }
  }

  /** Filtering distributes over concatenation: it decides country by country. */
  lemma {:induction false} KeepAppend(a: seq<Country>, b: seq<Country>, filter: string)
    ensures Keep(a + b, filter) == Keep(a, filter) + Keep(b, filter)
  {
    if a == [] {
      assert a + b == b;
    } else {
      assert (a + b)[0] == a[0];
      assert (a + b)[1..] == a[1..] + b;
      KeepAppend(a[1..], b, filter);
    }
  }

  /** The filtered list of a concatenation is the concatenation of the filtered lists. */
  lemma FilterAppend(a: seq<Country>, b: seq<Country>, filter: string)
    ensures FilterCountries(a + b, filter) == FilterCountries(a, filter) + FilterCountries(b, filter)
  {
    if filter != "" { KeepAppend(a, b, filter); }
  }

  /** Keeping the countries a predicate accepts everywhere keeps the whole list. */
  lemma {:induction false} KeepAll(all: seq<Country>, filter: string)
    requires forall c :: c in all ==> Matches(c, filter)
    ensures Keep(all, filter) == all
  {
    if all != [] {
      assert forall c :: c in all[1..] ==> c in all;
      KeepAll(all[1..], filter);
      assert all == [all[0]] + all[1..];
    }
  }

  /** The `if (filter)` guard is only a shortcut: filtering with "" keeps everything. */
  lemma EmptyFilterKeepsAll(all: seq<Country>)
    ensures Keep(all, "") == all
  {
  }

  /** Filtering twice with the same text is filtering once. */
  lemma FilterIdempotent(all: seq<Country>, filter: string)
    ensures FilterCountries(FilterCountries(all, filter), filter) == FilterCountries(all, filter)
  {
    if filter != "" { KeepAll(Keep(all, filter), filter); }
  }

  /** Two filters that accept the same countries keep the same list. */
  lemma {:induction false} KeepSameMatches(all: seq<Country>, f: string, g: string)
    requires forall c :: Matches(c, f) == Matches(c, g)
    ensures Keep(all, f) == Keep(all, g)
  {
    if all != [] { KeepSameMatches(all[1..], f, g); }
  }

  /** The filter is case-insensitive in the text typed: lower-casing it first
      changes nothing. */
  lemma FilterCaseInsensitive(all: seq<Country>, filter: string)
    ensures FilterCountries(all, Lower(filter)) == FilterCountries(all, filter)
  {
    LowerIdempotent(filter);
    if filter != "" {
      assert Lower(filter) != "" by { assert |Lower(filter)| == |filter|; }
      KeepSameMatches(all, Lower(filter), filter);
    }
  }

  /** `countries.slice(0, visibleCount)`: the rows that are rendered. */
  function Visible(filtered: seq<Country>, visibleCount: nat): (r: seq<Country>)
    ensures |r| == if visibleCount < |filtered| then visibleCount else |filtered|
    ensures r <= filtered
  {
    if visibleCount < |filtered| then filtered[..visibleCount] else filtered
  }

  /** The "show more" button is rendered while the cursor is below the list length. */
  /** It is shown exactly when some filtered rows are not yet rendered. */
  predicate ShowMoreShown(filtered: seq<Country>, visibleCount: nat)
    ensures ShowMoreShown(filtered, visibleCount) <==> Visible(filtered, visibleCount) != filtered
  {
    visibleCount < |filtered|
  }

  /** Clicking "show more" extends the rendered rows: the old rows stay in front
      and up to PageSize more follow. */
  lemma ShowMoreExtends(filtered: seq<Country>, visibleCount: nat)
    ensures Visible(filtered, visibleCount) <= Visible(filtered, visibleCount + PageSize)
    ensures ShowMoreShown(filtered, visibleCount) ==>
      |Visible(filtered, visibleCount)| < |Visible(filtered, visibleCount + PageSize)|
        <= |Visible(filtered, visibleCount)| + PageSize
  {
  }

  /** `i` is the position of the first country in `list` with this code. */
  ghost predicate FirstWithCode(list: seq<Country>, code: Code, i: int) {
    0 <= i < |list| && list[i].code == code &&
    forall j :: 0 <= j < i ==> list[j].code != code
  }

  /** `countries.find((country) => country.code === code)`. */
  function Find(list: seq<Country>, code: Code): (r: Option<Country>)
    ensures r.None? <==> forall c :: c in list ==> c.code != code
    ensures r.Some? ==> exists i :: FirstWithCode(list, code, i) && list[i] == r.value
  {
    if list == [] then None
    else if list[0].code == code then
      assert FirstWithCode(list, code, 0);
      Some(list[0])
    else
      var rest := Find(list[1..], code);
      assert forall c :: c in list ==> c == list[0] || c in list[1..];
      assert forall i :: FirstWithCode(list[1..], code, i) ==> FirstWithCode(list, code, i + 1);
      rest
  }

  /** `selected.map((code) => countries.find(...))` over the FILTERED list: one
      entry per selected code, in selection order; None stands for the
      `undefined` entry of a code with no country in the filtered list. */
  function Chips(selected: seq<Code>, filtered: seq<Country>): (r: seq<Option<Country>>)
    ensures |r| == |selected|
    ensures forall i :: 0 <= i < |r| && r[i].Some? ==>
      r[i].value.code == selected[i] && r[i].value in filtered
    ensures forall i :: 0 <= i < |r| ==>
      (r[i].None? <==> forall c :: c in filtered ==> c.code != selected[i])
  {
    seq(|selected|, i requires 0 <= i < |selected| => Find(filtered, selected[i]))
  }

  /** Each chip is the FIRST filtered country carrying the selected code. */
  lemma ChipIsFirstMatch(selected: seq<Code>, filtered: seq<Country>, i: nat)
    requires i < |selected|
    requires exists c :: c in filtered && c.code == selected[i]
    ensures Chips(selected, filtered)[i].Some?
    ensures exists k ::
      FirstWithCode(filtered, selected[i], k) && Chips(selected, filtered)[i] == Some(filtered[k])
  {
  }

  /** A selected country that the current filter hides gets a missing chip, even
      though the fetched list has it: chips are looked up in the filtered list. */
  lemma HiddenSelectionHasMissingChip(all: seq<Country>, filter: string, selected: seq<Code>, i: nat)
    requires i < |selected|
    requires forall c :: c in all && c.code == selected[i] ==> !Matches(c, filter)
    ensures Chips(selected, FilterCountries(all, filter))[i] == None
  {
  }

  /** With an empty filter a selected code resolves to the first country of the
      whole fetched list that carries it. */
  lemma UnfilteredChipResolves(all: seq<Country>, selected: seq<Code>, i: nat, k: nat)
    requires i < |selected|
    requires k < |all| && all[k].code == selected[i]
    ensures Chips(selected, FilterCountries(all, ""))[i].Some?
  {
  }
}
