/**
 * One filter of the timetable page (src/components/Timetable/CalendarFilter.jsx): a checkbox that
 * turns the filter on and off, and a searchable multi-select of the options. Turning a filter off
 * selects every option again, so that it lets every lesson through.
 */
module CalendarFilter {
  import opened Choices

  /** The values of the options, in order: `filterOptions.map((option) => option.value)`. */
  function Values<V>(options: seq<Choice<V>>): (r: seq<V>)
    ensures |r| == |options| && forall i :: 0 <= i < |options| ==> r[i] == options[i].value
  {
    if options == [] then [] else [options[0].value] + Values(options[1..])
  }

  /** The filters' on/off flags and the selection of this filter. */
  datatype State<V> = State(active: map<string, bool>, selected: seq<V>)

  /**
   * `handleFilterChange`: the flag of this filter becomes the checkbox's value and the others
   * stay; unticking selects every option, ticking keeps the selection.
   */
  function FilterChange<V>(s: State<V>, name: string, options: seq<Choice<V>>, checked: bool): (r: State<V>)
    ensures name in r.active && r.active[name] == checked
    ensures forall other :: other != name ==> (other in r.active <==> other in s.active)
    ensures forall other :: other != name && other in s.active ==> r.active[other] == s.active[other]
    ensures checked ==> r.selected == s.selected
    ensures !checked ==> |r.selected| == |options| && forall i :: 0 <= i < |options| ==> r.selected[i] == options[i].value
  {
    State(s.active[name := checked], if checked then s.selected else Values(options))
  }

  /** The select is shown while the filter's flag is set; a filter never toggled has none. */
  predicate Shown(active: map<string, bool>, name: string) {
    name in active && active[name]
  }

  /** The options as the select lists them: a sorted copy, every option kept. */
  function ShownOptions<V>(options: seq<Choice<V>>): (r: seq<Choice<V>>)
    ensures SortedByLabel(r) && multiset(r) == multiset(options)
  {
    SortByLabel(options)
  }

  /** After a filter is turned off, every option's value is selected, whatever was selected before. */
  lemma OffSelectsEverything<V>(s: State<V>, name: string, options: seq<Choice<V>>, o: Choice<V>)
    requires o in options
    ensures o.value in FilterChange(s, name, options, false).selected
    ensures !Shown(FilterChange(s, name, options, false).active, name)
  {
    var i :| 0 <= i < |options| && options[i] == o;
    assert FilterChange(s, name, options, false).selected[i] == o.value;
  }

  /** Turning a filter off and on again shows the select with every option selected. */
  lemma OffThenOn<V>(s: State<V>, name: string, options: seq<Choice<V>>)
    ensures var r := FilterChange(FilterChange(s, name, options, false), name, options, true);
            Shown(r.active, name) && r.selected == Values(options)
  {
  }
}
