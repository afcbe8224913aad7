/** config/ModifierClassMap.php: the closed table from configuration keys to
    modifier classes. */
module ModifierClassMap {
  import opened Modifiers

  const ClassMap: map<string, ModifierKind> := map[
    "filter_time_before" := TimeBefore,
    "set_organizer" := Organizer,
    "replace_location" := Location]

  /** Exactly three keys, one per class, and only 'filter_time_before' names
      a filter. */
  lemma ClassMapShape()
    ensures ClassMap.Keys == {"filter_time_before", "set_organizer", "replace_location"}
    ensures |ClassMap| == 3
    ensures ClassMap.Values == {TimeBefore, Organizer, Location}
    ensures forall key :: key in ClassMap ==> (IsFilter(ClassMap[key]) <==> key == "filter_time_before")
  {
    assert "filter_time_before" != "set_organizer" && "set_organizer" != "replace_location"
      && "filter_time_before" != "replace_location";
  }
}
