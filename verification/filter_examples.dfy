/** The name filter on two sample records from the lookup service. */
module FilterExamples {
  import opened Text
  import opened PostalApi
  import opened NameFilter

  const Ramanthapur := PostOffice("Ramanthapur S.O", "Sub Post Office", "Non-Delivery", "Hyderabad", "Hyderabad City")
  const Ramnagar := PostOffice("Ramnagar S.O", "Sub Post Office", "Non-Delivery", "Hyderabad", "Hyderabad City")

  /** A string that lacks the query's first character cannot include the query. */
  lemma MissingFirstCharacter(h: string, n: string)
    requires |n| > 0 && n[0] !in h
    ensures !Includes(h, n)
  {
    IncludesIffOccurs(h, n);
    assert forall i :: OccursAt(h, n, i) ==> h[i] == n[0];
  }

  lemma RamanthapurMatches()
    ensures Matches(Ramanthapur, "RAM") && !Matches(Ramanthapur, "xyz")
  {
    assert ToLower("RAM") == "ram" && ToLower("xyz") == "xyz";
    assert ToLower(Ramanthapur.name) == "ramanthapur s.o";
    assert "ram" <= "ramanthapur s.o";
    MissingFirstCharacter("ramanthapur s.o", "xyz");
  }

  lemma RamnagarMatches()
    ensures Matches(Ramnagar, "RAM") && !Matches(Ramnagar, "xyz")
  {
    assert ToLower("RAM") == "ram" && ToLower("xyz") == "xyz";
    assert ToLower(Ramnagar.name) == "ramnagar s.o";
    assert "ram" <= "ramnagar s.o";
    MissingFirstCharacter("ramnagar s.o", "xyz");
  }

  /** "RAM" keeps both records, whatever their case; "xyz" keeps none. */
  lemma SampleQueries()
    ensures FilterByName([Ramanthapur, Ramnagar], "RAM") == [Ramanthapur, Ramnagar]
    ensures FilterByName([Ramanthapur, Ramnagar], "xyz") == []
  {
    RamanthapurMatches();
    RamnagarMatches();
    FilterAppend([Ramanthapur], [Ramnagar], "RAM");
    FilterAppend([Ramanthapur], [Ramnagar], "xyz");
  }
}
