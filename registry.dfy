/**
 * The fixed city registry of the weather script: an ordered mapping from a
 * display name to a pair of coordinates, and the numbered menu printed from it.
 */
module Registry {
  import Digits

  /** Latitude and longitude; the source keeps them as floats and only formats them into a URL. */
  datatype Coordinates = Coordinates(latitude: real, longitude: real)

  /** One entry of the registry, in iteration order. */
  datatype City = City(name: string, coordinates: Coordinates)

  /**
   * The registry in its dictionary order. The Kazan entry is kept exactly as the
   * source writes it: its keyword arguments give 49.106414 as the latitude and
   * 55.796127 as the longitude, i.e. swapped with respect to the real city.
   */
  const Cities: seq<City> := [
    City("Дубна", Coordinates(56.736343, 37.162177)),
    City("Москва", Coordinates(55.755864, 37.617698)),
    City("Казань", Coordinates(49.106414, 55.796127)),
    City("Санкт-Петербург", Coordinates(59.938784, 30.314997))
  ]

  /** Dictionary keys are unique, so no name occurs twice in the registry. */
  predicate NamesUnique(registry: seq<City>) {
    forall i, j :: 0 <= i < j < |registry| ==> registry[i].name != registry[j].name
  }

  const MenuTitle: string := "Выберите город:"

  /** The menu line for the entry at 0-based position k: "<k + 1>) <name>". */
  function MenuLine(registry: seq<City>, k: nat): string
    requires k < |registry|
  {
    Digits.Decimal(k + 1) + ") " + registry[k].name
  }

  /** The title followed by one line per entry, numbered from 1 in registry order. */
  function Menu(registry: seq<City>): seq<string>
  {
    [MenuTitle] + seq(|registry|, k requires 0 <= k < |registry| => MenuLine(registry, k))
  }

  lemma CitiesWellFormed()
    ensures |Cities| == 4 && NamesUnique(Cities)
  {
  }
}
