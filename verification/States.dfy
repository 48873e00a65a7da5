/** The state and severity tables shared by the services. */
module States {

  // ----- severity of a coverage gap

  datatype Severity = Minor | Major | Critical {
    function Rank(): nat {
      match this
      case Minor => 0
      case Major => 1
      case Critical => 2
    }
  }

  function SeverityForRatio(ratio: real): Severity {
    if ratio >= 0.12 then Critical
    else if ratio >= 0.05 then Major
    else Minor
  }

  // ----- review of a coverage gap

  datatype GapState = Detected | Reviewed | Accepted | FalsePositive | Resurveyed | Closed {
    predicate CanTransition(target: GapState) {
      match this
      case Detected => target == Reviewed
      case Reviewed => target == Accepted || target == FalsePositive
      case Accepted => target == Resurveyed
      case FalsePositive => target == Closed
      case Resurveyed => target == Closed
      case Closed => false
    }

    /** A potential that every transition raises, so no state is ever entered twice. */
    ghost function Rank(): nat {
      match this
      case Detected => 0
      case Reviewed => 1
      case Accepted => 2
      case FalsePositive => 2
      case Resurveyed => 3
      case Closed => 4
    }
  }

  // ----- processing of a sonar run

  datatype RunState = Imported | QualityChecked | Processing | Processed | Rejected | Superseded {
    predicate CanTransition(target: RunState) {
      match this
      case Imported => target == QualityChecked || target == Rejected
      case QualityChecked => target == Processing || target == Rejected
      case Processing => target == Processed || target == Rejected
      case Processed => target == Superseded
      case Rejected => false
      case Superseded => false
    }

    ghost function Rank(): nat {
      match this
      case Imported => 0
      case QualityChecked => 1
      case Processing => 2
      case Processed => 3
      case Rejected => 4
      case Superseded => 4
    }
  }

  // ----- navigation quality

  datatype Navigation = Good | Degraded | Invalid

  /** The base positioning error, in metres, of a navigation quality. */
  function NavBaseAccuracy(quality: Navigation): real {
    match quality
    case Good => 1.5
    case Degraded => 6.0
    case Invalid => 15.0
  }
}
