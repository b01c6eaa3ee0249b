/** The airport picker (`app/components/AirportSelect.tsx`): a fixed list of
    five airports, filtered by a case-insensitive substring query. */
module AirportSelect {
  import opened Basics
  import opened Text

  datatype Airport = Airport(iataCode: string, name: string, city: string, country: string)

  const CommonAirports: seq<Airport> := [
    Airport("LAX", "Los Angeles International Airport", "Los Angeles", "USA"),
    Airport("JFK", "John F. Kennedy International Airport", "New York", "USA"),
    Airport("SFO", "San Francisco International Airport", "San Francisco", "USA"),
    Airport("ORD", "O'Hare International Airport", "Chicago", "USA"),
    Airport("LHR", "London Heathrow Airport", "London", "UK")
  ]

  /** The query occurs, ignoring case, in the name, the city or the code.
      The country is not searched. */
  predicate AirportMatches(a: Airport, query: string) {
    MatchesIgnoringCase(a.name, query) || MatchesIgnoringCase(a.city, query) || MatchesIgnoringCase(a.iataCode, query)
  }

  /** The list the dropdown shows for a query. */
  function FilterAirports(query: string): (r: seq<Airport>)
    ensures IsSubseq(r, CommonAirports)
    ensures forall a :: a in r <==> a in CommonAirports && AirportMatches(a, query)
  {
    var keep := (a: Airport) => AirportMatches(a, query);
    FilterIsSubseq(keep, CommonAirports);
    Filter(keep, CommonAirports)
  }

  /** With nothing typed, every airport is offered, in the original order. */
  lemma EmptyQueryKeepsAll()
    ensures FilterAirports("") == CommonAirports
    ensures |FilterAirports("")| == 5
  {
    forall a | a in CommonAirports ensures AirportMatches(a, "") {
      MatchesOwnText(a.name);
    }
    FilterKeepsAll((a: Airport) => AirportMatches(a, ""), CommonAirports);
  }

  /** Clicking an airport: the parent is told its code, the box shows the
      code, and the dropdown closes. */
  datatype Selection = Selection(reported: string, query: string, open: bool)

  function Select(a: Airport): (s: Selection)
    ensures s.reported == a.iataCode && s.query == a.iataCode && !s.open
  {
    Selection(a.iataCode, a.iataCode, false)
  }

  /** The query left in the box after a click still offers the clicked
      airport. */
  lemma SelectedAirportStaysListed(a: Airport)
    requires a in CommonAirports
    ensures a in FilterAirports(Select(a).query)
  {
    MatchesOwnText(a.iataCode);
  }
}
