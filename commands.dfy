/**
 * One parsed G-code instruction (the dictionary built by parse_command) and the
 * classifier that tells travel moves from extrude moves.
 */
module Commands {
  import opened Wrappers

  /** The Python exceptions the program can raise on its own input. */
  datatype Crash =
    | IndexError             // indexing an empty token or an empty list
    | ValueError             // float() of a malformed number, math.sqrt of a negative number
    | KeyError(key: string)  // reading a field the dictionary does not hold
    | ZeroDivisionError
    | NameError(name: string)

  /**
   * A command dictionary: its optional 'command' entry (the G/M code) and its
   * single-letter fields.  Buffered block commands carry no 'command' entry.
   */
  datatype Cmd = Cmd(tag: Option<string>, fields: map<char, real>)

  datatype Point = Point(x: real, y: real)

  const InvalidTag: string := "invalid"

  /** What parse_command returns for a line whose first word is not a G or M code. */
  const Invalid: Cmd := Cmd(Some(InvalidTag), map[])

  const LinearMove: string := "G1"

  predicate IsValid(c: Cmd) {
    c.tag != Some(InvalidTag)
  }

  /** is_travel_cmd: a G1 with X or Y, without Z and without E. */
  predicate IsTravel(c: Cmd) {
    if c.tag == Some(LinearMove) then
      if 'X' in c.fields || 'Y' in c.fields then
        if 'Z' !in c.fields then 'E' !in c.fields
        else false
      else false
    else false
  }

  /** is_extrude_cmd: a G1 with X or Y, without Z and with E. */
  predicate IsExtrude(c: Cmd) {
    if c.tag == Some(LinearMove) then
      if 'X' in c.fields || 'Y' in c.fields then
        if 'Z' !in c.fields then 'E' in c.fields
        else false
      else false
    else false
  }

  /** The two classes never overlap, and both are refused for the same three reasons. */
  lemma ClassifierExclusive(c: Cmd)
    ensures !(IsTravel(c) && IsExtrude(c))
    ensures c.tag != Some(LinearMove) ==> !IsTravel(c) && !IsExtrude(c)
    ensures 'Z' in c.fields ==> !IsTravel(c) && !IsExtrude(c)
    ensures 'X' !in c.fields && 'Y' !in c.fields ==> !IsTravel(c) && !IsExtrude(c)
    ensures IsTravel(c) || IsExtrude(c) <==>
              c.tag == Some(LinearMove) && ('X' in c.fields || 'Y' in c.fields) && 'Z' !in c.fields
    ensures IsExtrude(c) ==> 'E' in c.fields
    ensures IsTravel(c) ==> 'E' !in c.fields
  {
  }

  function PointOf(c: Cmd): Point
    requires 'X' in c.fields && 'Y' in c.fields
  {
    Point(c.fields['X'], c.fields['Y'])
  }

  function E(c: Cmd): real
    requires 'E' in c.fields
  {
    c.fields['E']
  }

  /** A G1 move to p with no extrusion, as inserted after a split segment. */
  function TravelTo(p: Point): Cmd {
    Cmd(Some(LinearMove), map['X' := p.x, 'Y' := p.y])
  }
}
