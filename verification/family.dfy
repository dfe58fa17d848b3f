/** The tag family the detector is built for, chosen by name. */
module Family {

  datatype TagFamily = Tag16h5 | Tag25h7 | Tag25h9 | Tag36h9 | Tag36h11

  /** The name the `tag_family` parameter uses for each family. */
  function FamilyName(f: TagFamily): string {
    match f
    case Tag16h5 => "16h5"
    case Tag25h7 => "25h7"
    case Tag25h9 => "25h9"
    case Tag36h9 => "36h9"
    case Tag36h11 => "36h11"
  }

  /** The family named by `name`; any other name falls back to 36h11. */
  function FamilyFromName(name: string): (f: TagFamily)
    ensures forall g: TagFamily :: FamilyName(g) == name ==> f == g
    ensures f != Tag36h11 ==> FamilyName(f) == name
    ensures (forall g: TagFamily :: FamilyName(g) != name) ==> f == Tag36h11
  {
    if name == "16h5" then Tag16h5
    else if name == "25h7" then Tag25h7
    else if name == "25h9" then Tag25h9
    else if name == "36h9" then Tag36h9
    else Tag36h11
  }

  /** Every family is selected by its own name. */
  lemma FamilyRoundTrip(f: TagFamily)
    ensures FamilyFromName(FamilyName(f)) == f
  {
  }

  /** The default parameter value selects 36h11. */
  lemma DefaultFamily()
    ensures FamilyFromName("36h11") == Tag36h11
  {
  }
}
