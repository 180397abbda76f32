/** The seniority labels shared by the scoring engine and the level detector. */
module Levels {

  datatype Level = Intern | Fresher | Junior | Mid | Senior

  /** The label as the services spell it. */
  function Name(l: Level): string
  {
    match l
    case Intern => "intern"
    case Fresher => "fresher"
    case Junior => "junior"
    case Mid => "mid"
    case Senior => "senior"
  }

  /** Position in order of seniority. */
  function Rank(l: Level): nat
  {
    match l
    case Intern => 0
    case Fresher => 1
    case Junior => 2
    case Mid => 3
    case Senior => 4
  }
}
