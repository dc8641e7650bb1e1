/** ServingModeType: how an OCI GenAI model is served. */
module ServingModes {

  /** The two enum constants, ON_DEMAND and DEDICATED. */
  datatype ServingModeType = OnDemand | Dedicated {
    /** The `mode` string each constant carries (its Lombok getter getMode). */
    function Mode(): string {
      match this
      case OnDemand => "on-demand"
      case Dedicated => "dedicated"
    }
  }

  /** The strings the two constants carry. */
  lemma ModeStrings()
    ensures OnDemand.Mode() == "on-demand"
    ensures Dedicated.Mode() == "dedicated"
  {
  }

  /** There are exactly two serving modes. */
  lemma ExactlyTwo(t: ServingModeType)
    ensures t == OnDemand || t == Dedicated
  {
  }

  /** Distinct constants carry distinct mode strings, so getMode identifies the constant. */
  lemma ModeInjective(a: ServingModeType, b: ServingModeType)
    ensures a.Mode() == b.Mode() ==> a == b
  {
    if a != b {
      assert a.Mode()[0] != b.Mode()[0];
    }
  }
}
