/** The two enumerations of the task domain and their `name()` strings. */
module Domain {

  datatype Status = OPEN | IN_PROGRESS | COMPLETED

  datatype Priority = HIGH | MEDIUM | LOW

  /** `Status.name()`. */
  function StatusName(s: Status): (r: string)
    ensures r != [] && '|' !in r
  {
    match s
    case OPEN => "OPEN"
    case IN_PROGRESS => "IN_PROGRESS"
    case COMPLETED => "COMPLETED"
  }

  /** `Priority.name()`. */
  function PriorityName(p: Priority): (r: string)
    ensures r != [] && '|' !in r
  {
    match p
    case HIGH => "HIGH"
    case MEDIUM => "MEDIUM"
    case LOW => "LOW"
  }

  /** Distinct statuses have distinct names, so a name identifies its status. */
  lemma StatusNameInjective(a: Status, b: Status)
    requires StatusName(a) == StatusName(b)
    ensures a == b
  {
  }
}
