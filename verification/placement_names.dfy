/** The string values of the `placement` prop as the component's type
    declarations list them, and how they read back into `Popper.Placement`. */
module PlacementNames {
  import opened Wrappers
  import opened Popper

  function SideName(side: Side): string {
    match side
    case Auto => "auto"
    case Top => "top"
    case Bottom => "bottom"
    case Right => "right"
    case Left => "left"
  }

  function AlignmentSuffix(alignment: Alignment): string {
    match alignment
    case Centered => ""
    case Start => "-start"
    case End => "-end"
  }

  /** The prop string of a placement, such as "bottom-start". */
  function PlacementName(p: Placement): string {
    SideName(p.side) + AlignmentSuffix(p.alignment)
  }

  function SideFromName(s: string): (r: Option<Side>)
    ensures r.Some? ==> SideName(r.value) == s
  {
    match s
    case "auto" => Some(Auto)
    case "top" => Some(Top)
    case "bottom" => Some(Bottom)
    case "right" => Some(Right)
    case "left" => Some(Left)
    case _ => None
  }

  /** The placement a prop string names, if it is one of the declared values. */
  function PlacementFromName(s: string): (r: Option<Placement>)
    ensures r.Some? ==> PlacementName(r.value) == s
  {
    if |s| >= 6 && s[|s| - 6..] == "-start" && SideFromName(s[..|s| - 6]).Some? then
      Some(Placement(SideFromName(s[..|s| - 6]).value, Start))
    else if |s| >= 4 && s[|s| - 4..] == "-end" && SideFromName(s[..|s| - 4]).Some? then
      Some(Placement(SideFromName(s[..|s| - 4]).value, End))
    else if SideFromName(s).Some? then
      Some(Placement(SideFromName(s).value, Centered))
    else
      None
  }

  /** Every one of the fifteen placements is read back from its own name. */
  lemma PlacementNameRoundTrip(p: Placement)
    ensures PlacementFromName(PlacementName(p)) == Some(p)
  {
    var side := SideName(p.side);
    var name := PlacementName(p);
    match p.alignment
    case Start =>
      assert name[|name| - 6..] == "-start";
      assert name[..|name| - 6] == side;
    case End =>
      assert name[|name| - 4..] == "-end";
      assert name[..|name| - 4] == side;
      assert !(|name| >= 6 && name[|name| - 6..] == "-start") by {
        if |name| >= 6 {
          assert name[|name| - 6..][2] == name[|name| - 4] == '-';
        }
      }
    case Centered =>
      assert name == side;
  }
}
