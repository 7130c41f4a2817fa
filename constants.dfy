/** The constant tables of constants.ts and the lookups the app performs on them. */
module Constants {
  import opened Types

  datatype LayoutOption = LayoutOption(id: LayoutType, name: string, iconKey: string)

  datatype FilterOption = FilterOption(id: FilterType, name: string, className: string)

  const LAYOUT_OPTIONS: seq<LayoutOption> := [
    LayoutOption(Grid, "Négyzetrács", "grid"),
    LayoutOption(Strip, "Fotócsík", "strip")
  ]

  /** Countdown lengths offered, in seconds. */
  const COUNTDOWN_VALUES: seq<int> := [3, 5, 10]

  const FILTER_OPTIONS: seq<FilterOption> := [
    FilterOption(Original, "Eredeti", ""),
    FilterOption(BlackAndWhite, "Fekete-fehér", "filter grayscale"),
    FilterOption(Sepia, "Szépia", "filter sepia"),
    FilterOption(Vintage, "Vintage", "filter vintage")
  ]

  /** Every session takes this many photos, whatever the layout. */
  const PHOTOS_PER_SESSION: nat := 4

  /** The countdown the app starts with: `COUNTDOWN_VALUES[1]`. */
  const DEFAULT_COUNTDOWN: int := COUNTDOWN_VALUES[1]

  /** `options.find(f => f.id === id)`: the first entry with that id, if any. */
  function FindFilter(options: seq<FilterOption>, id: FilterType): (r: Option<FilterOption>)
    ensures r.Some? <==> exists k :: 0 <= k < |options| && options[k].id == id
    ensures r.Some? ==> r.value.id == id && r.value in options
    ensures r.Some? ==> exists k :: 0 <= k < |options| && options[k] == r.value &&
                                    forall j :: 0 <= j < k ==> options[j].id != id
  {
    if options == [] then None
    else if options[0].id == id then Some(options[0])
    else
      var rest := FindFilter(options[1..], id);
      assert forall k :: 1 <= k < |options| ==> options[k] == options[1..][k - 1];
      rest
  }

  /** FILTER_OPTIONS holds exactly one entry per filter, so the lookup by id never fails. */
  lemma FilterOptionsOnePerFilter()
    ensures forall i, j :: 0 <= i < j < |FILTER_OPTIONS| ==> FILTER_OPTIONS[i].id != FILTER_OPTIONS[j].id
    ensures forall f: FilterType :: FindFilter(FILTER_OPTIONS, f).Some?
  {
    forall f: FilterType ensures FindFilter(FILTER_OPTIONS, f).Some? {
      var k := match f
        case Original => 0 case BlackAndWhite => 1 case Sepia => 2 case Vintage => 3;
      assert FILTER_OPTIONS[k].id == f;
    }
  }

  /** Only Original has an empty class name, so only Original exports unfiltered. */
  lemma OnlyOriginalHasEmptyClass()
    ensures forall k :: 0 <= k < |FILTER_OPTIONS| ==>
              (FILTER_OPTIONS[k].className == "" <==> FILTER_OPTIONS[k].id == Original)
  {
  }

  /** Every other class name is "filter " followed by one space-free, non-empty token. */
  lemma FilterClassesAreOneToken()
    ensures forall k :: 0 <= k < |FILTER_OPTIONS| && FILTER_OPTIONS[k].id != Original ==>
              |FILTER_OPTIONS[k].className| > 7 &&
              FILTER_OPTIONS[k].className[..7] == "filter " &&
              ' ' !in FILTER_OPTIONS[k].className[7..]
  {
  }

  /** The countdown choices are positive and strictly increasing; the default is the 5-second one. */
  lemma CountdownValuesOrdered()
    ensures forall k :: 0 <= k < |COUNTDOWN_VALUES| ==> COUNTDOWN_VALUES[k] > 0
    ensures forall i, j :: 0 <= i < j < |COUNTDOWN_VALUES| ==> COUNTDOWN_VALUES[i] < COUNTDOWN_VALUES[j]
    ensures DEFAULT_COUNTDOWN == 5 && DEFAULT_COUNTDOWN in COUNTDOWN_VALUES
  {
  }

  /** LAYOUT_OPTIONS holds exactly one entry per layout, Grid first. */
  lemma LayoutOptionsOnePerLayout()
    ensures forall i, j :: 0 <= i < j < |LAYOUT_OPTIONS| ==> LAYOUT_OPTIONS[i].id != LAYOUT_OPTIONS[j].id
    ensures |LAYOUT_OPTIONS| == 2 && LAYOUT_OPTIONS[0].id == Grid && LAYOUT_OPTIONS[1].id == Strip
  {
  }
}
