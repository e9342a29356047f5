/** The `STATIONS` registry of `code.py`: one entry per selectable line. */
module Stations {

  /** The selectable lines. */
  datatype Line = L | G

  /** The key under which a line is registered, which is also the route its trains carry. */
  function Name(line: Line): string {
    match line
    case L => "L"
    case G => "G"
  }

  datatype Station = Station(stopId: string, name: string, north: string, south: string, bitmap: string)

  /** The registry entry of a line: stop id, station name, direction names, logo file. */
  function StationOf(line: Line): (st: Station)
    ensures |st.stopId| == 3 && st.stopId[..1] == Name(line)
    ensures |st.name| > 1 && st.name[..1] == Name(line)
    ensures st.north != st.south
  {
    match line
    case L => Station("L11", "L-Graham Av", "Manhattan", "Canarsie", "l-dashboard.bmp")
    case G => Station("G29", "G-Metro Av", "Queens", "Church Av", "g-dashboard.bmp")
  }

  /** The registry as the dictionary keyed by line name. */
  const STATIONS: map<string, Station> := map[Name(L) := StationOf(L), Name(G) := StationOf(G)]

  /** The registry holds exactly one entry per line, under the line's name. */
  lemma RegistryHoldsEveryLine()
    ensures forall line: Line :: Name(line) in STATIONS && STATIONS[Name(line)] == StationOf(line)
    ensures forall key :: key in STATIONS ==> exists line: Line :: Name(line) == key
    ensures forall a: Line, b: Line :: Name(a) == Name(b) ==> a == b
  {
    assert Name(L) != Name(G) by { assert Name(L)[0] != Name(G)[0]; }
  }

  /** The arrivals endpoint; the stop id is appended to it. */
  const API_BASE := "https://api.wheresthefuckingtrain.com/by-id/"

  /** `DATA_SOURCE` for a line: the endpoint followed by the line's stop id. */
  function DataSourceFor(line: Line): (url: string)
    ensures |url| == |API_BASE| + 3
    ensures url[..|API_BASE|] == API_BASE && url[|API_BASE|..] == StationOf(line).stopId
  {
    API_BASE + StationOf(line).stopId
  }

  /** The endpoint determines the line, so no two lines ever share a data source. */
  lemma DataSourceIdentifiesLine(a: Line, b: Line)
    ensures DataSourceFor(a) == DataSourceFor(b) <==> a == b
  {
    if a != b {
      assert DataSourceFor(a)[|API_BASE|..] == StationOf(a).stopId;
      assert DataSourceFor(b)[|API_BASE|..] == StationOf(b).stopId;
      assert StationOf(a).stopId[0] != StationOf(b).stopId[0];
    }
  }
}
