// An enum that the validator accepts and a Rust client misspells.
module EnumExample {
  import opened Json
  import opened Naming
  import opened EnumSpelling
  import opened Types
  import opened Graph
  import opened Acyclic
  import opened TypeRules
  import opened Conformance
  import opened ClientBodies

  const STEP := "step_1"
  const STEPS: TypeTable := TypeTable(["Phase"], map["Phase" := EnumDef([STEP])])

  lemma StepIsMisspelled()
    ensures SnakeCase(Chomp(STEP)) && Spelled(STEP) != STEP
  {
    assert STEP[4] == '_' && !Lower(STEP[5]);
    SpelledIffComesBack(STEP);
  }

  lemma PhaseIsAName()
    ensures Ident(Chomp("Phase")) && !BuiltinName("Phase")
  {}

  lemma StepsGrounded()
    ensures WellFounded(DefinitionGraph(STEPS))
  {
    var g := DefinitionGraph(STEPS);
    forall n | n in g ensures exists k: nat :: Grounded(g, n, k) {
      assert Grounded(g, n, 1);
    }
  }

  lemma StepsAccepted()
    ensures STEPS.Valid() && TypesAccepted(STEPS) && Resolved(STEPS)
  {
    StepIsMisspelled();
    PhaseIsAName();
    StepsGrounded();
    assert VariantsOk([STEP]);
    AcceptedIsResolved(STEPS);
  }

  // The variant step_1 is accepted and its enum compiles, but the client sends
  // another text, which is no value of the declared type.
  lemma StepIsRefused(c: Checks)
    ensures STEPS.Valid() && TypesAccepted(STEPS) && Resolved(STEPS) && Compiles([STEP])
    ensures Conforms(BodyTable(WritesDefaults, STEPS), c, Named("Phase"), Str(Spelled(STEP)))
    ensures !Conforms(STEPS, c, Named("Phase"), Str(Spelled(STEP)))
  {
    StepIsMisspelled();
    StepsAccepted();
    MisspelledIsNoValue(STEPS, c, "Phase", 0);
  }
}
