/** What the encyclopedia says about aircraft types; the table itself is a parameter. */
module Encyclopedias {
  import opened Basics

  datatype Tag = FixedWingTag | RotaryWingTag | Unarmed | Fighter | Attack

  datatype Category = AnyAircraft | FixedWing | RotaryWing

  datatype Aircraft = Aircraft(tags: set<Tag>, threatRadius: real) {
    function Category(): Category {
      if FixedWingTag in tags then FixedWing
      else if RotaryWingTag in tags then RotaryWing
      else AnyAircraft
    }

    // Nautical miles.
    function ThreatRadius(): real {
      if threatRadius != 0.0 || Unarmed in tags then threatRadius
      else if RotaryWingTag in tags then 3.0
      else if Attack in tags then SAR1_IR_THREAT
      else SAR2_AR1_THREAT
    }
  }

  const SAR1_IR_THREAT: real := 15.0
  const SAR2_AR1_THREAT: real := 25.0

  // ACMI name -> data, if the aircraft is known.
  type Encyclopedia = string -> Option<Aircraft>
}
