/**
 * The campus map: a fixed table of facilities placed by percentage
 * coordinates, the colour and label each facility type is shown with, and
 * the one facility whose details are open.
 */
module CampusMap {
  import opened Wrappers

  /** A facility; `x` and `y` are percentages of the map's width and height. */
  datatype Facility = Facility(id: string, name: string, description: string, kind: string, x: int, y: int)

  const Facilities: seq<Facility> := [
    Facility("1", "Main Building",
      "Administrative offices, principal's office, and main classrooms", "academic", 50, 30),
    Facility("2", "Computer Lab",
      "State-of-the-art computer lab with 50 systems and high-speed internet", "lab", 30, 45),
    Facility("3", "Library",
      "Central library with 10,000+ books, journals, and digital resources", "facility", 70, 40),
    Facility("4", "Mechanical Workshop",
      "Fully equipped mechanical engineering workshop and lab", "lab", 25, 65),
    Facility("5", "Canteen",
      "Student canteen serving fresh meals and snacks at subsidized rates", "facility", 75, 70),
    Facility("6", "Boys Hostel",
      "Accommodation facility for male students with 200 rooms", "hostel", 15, 80),
    Facility("7", "Girls Hostel",
      "Accommodation facility for female students with 150 rooms", "hostel", 85, 85),
    Facility("8", "Sports Ground",
      "Multi-purpose sports ground for cricket, football, and athletics", "facility", 50, 85)
  ]

  /** The facility types both switches recognise, in the order they list them. */
  const KnownKinds: seq<string> := ["academic", "lab", "facility", "hostel"]

  /** `getMarkerColor`: the marker class for a facility type. */
  function MarkerColor(kind: string): (r: string)
    ensures r == "bg-muted" <==> kind !in KnownKinds
  {
    if kind == "academic" then "bg-primary"
    else if kind == "lab" then "bg-secondary"
    else if kind == "facility" then "bg-accent"
    else if kind == "hostel" then "bg-destructive"
    else "bg-muted"
  }

  /** `getTypeLabel`: the display name of a facility type; an unknown type is shown as it is. */
  function TypeLabel(kind: string): (r: string)
    ensures kind !in KnownKinds ==> r == kind
    ensures kind in KnownKinds ==> r != kind && r !in KnownKinds
  {
    if kind == "academic" then "Academic"
    else if kind == "lab" then "Laboratory"
    else if kind == "facility" then "Facility"
    else if kind == "hostel" then "Hostel"
    else kind
  }

  /** The four known types get four different marker colours. */
  lemma MarkerColorsDistinct(i: int, j: int)
    requires 0 <= i < |KnownKinds| && 0 <= j < |KnownKinds|
    ensures MarkerColor(KnownKinds[i]) == MarkerColor(KnownKinds[j]) <==> i == j
  {
  }

  /** A label is never relabelled: applying the switch to its own output changes nothing. */
  lemma TypeLabelIdempotent(kind: string)
    ensures TypeLabel(TypeLabel(kind)) == TypeLabel(kind)
  {
  }

  /** The legend under the map: a swatch class and a caption per known type. */
  const Legend: seq<(string, string)> := [
    ("bg-primary", "Academic"),
    ("bg-secondary", "Laboratory"),
    ("bg-accent", "Facility"),
    ("bg-destructive", "Hostel")
  ]

  /** The legend shows each known type with the colour and the label the two switches give it. */
  lemma LegendMatchesSwitches()
    ensures |Legend| == |KnownKinds|
    ensures forall i | 0 <= i < |Legend| ::
      Legend[i] == (MarkerColor(KnownKinds[i]), TypeLabel(KnownKinds[i]))
  {
  }

  /** Every seed facility has a known type, so no seed marker falls back to the default colour. */
  lemma SeedKindsKnown()
    ensures forall f | f in Facilities :: f.kind in KnownKinds && MarkerColor(f.kind) != "bg-muted"
  {
  }

  /** Every seed facility lies on the map. */
  lemma SeedOnMap()
    ensures forall f | f in Facilities :: 0 <= f.x <= 100 && 0 <= f.y <= 100
  {
  }

  /** The seed ids, used as element keys, are pairwise distinct. */
  lemma SeedIdsDistinct()
    ensures forall i, j | 0 <= i < j < |Facilities| :: Facilities[i].id != Facilities[j].id
  {
  }

  /** The facility whose details dialog is open, if any. */
  class MapView {
    var selected: Option<Facility>

    /** Nothing is selected when the map mounts. */
    constructor ()
      ensures selected == None
    {
      selected := None;
    }

    /** Clicking the marker of seed facility `i` opens exactly that facility. */
    method Select(i: int)
      requires 0 <= i < |Facilities|
      modifies this
      ensures selected == Some(Facilities[i])
    {
      selected := Some(Facilities[i]);
    }

    /** The close button clears the selection. */
    method Close()
      modifies this
      ensures selected == None
    {
      selected := None;
    }
  }
}
