/** One pass of ensureAutomationConfig, and a second pass over unchanged user inputs. */
module Stability {
  import opened Wrappers
  import SemVer
  import SC = ScramCredentials
  import opened Secrets
  import opened ScramEnable
  import opened AutomationConfig
  import opened Builder
  import opened ConfigHistory
  import opened ConfigEquality

  /** The secrets, the stored config and whether the pass succeeded. */
  datatype Pass = Pass(secrets: Contents, stored: Stored, ok: bool)

  ghost function EnsureAutomationConfig(c: SC.Crypto, lib: SemVer.Library, secrets: Contents, stored: Stored,
                                        setup: Setup, x: Inputs, r: Random): (p: Pass)
    requires SC.Lawful(c)
  {
    var auth := Enable(c, secrets, setup, r);
    if Read(stored).None? || auth.0.None? then Pass(auth.1, stored, false)
    else
      var inputs := x.(auth := auth.0.value);
      Pass(auth.1, Advance(lib, stored, inputs), Build(lib, Read(stored).value, inputs).Built?)
  }

  /** A successful pass stores the authentication that was just configured. */
  lemma StoresAuth(lib: SemVer.Library, stored: Stored, x: Inputs)
    requires WellStored(stored) && AllBenign(x.modifications) && Build(lib, Read(stored).value, x).Built?
    ensures var t := Advance(lib, stored, x); t.Holding? && SameAuth(t.config.auth, x.auth)
  {
    var previous := Read(stored).value;
    var draft := Draft(lib, previous, x, CarriedFcv(lib, previous, x.fcv, x.mongodbVersion).value);
    ApplyAllBenign(x.modifications, draft, 0);
    EnsureStoresDesired(stored, Build(lib, previous, x).config);
  }

  /**
   A successful pass stores the authentication it configured. After it, a second one with the same resource writes no
   secret and no config, whatever either drew at random; it succeeds too unless the stored feature compatibility version
   does not parse.
   */
  lemma SecondReconcileWritesNothing(c: SC.Crypto, lib: SemVer.Library, secrets: Contents, stored: Stored,
                                     setup: Setup, x: Inputs, r: Random, redraw: Random)
    requires SC.Lawful(c) && SemVer.Lawful(lib) && NamesDistinct(setup)
    requires WellStored(stored) && AllBenign(x.modifications) && x.members >= 1
    requires EnsureAutomationConfig(c, lib, secrets, stored, setup, x, r).ok
    ensures var one := EnsureAutomationConfig(c, lib, secrets, stored, setup, x, r);
            var two := EnsureAutomationConfig(c, lib, one.secrets, one.stored, setup, x, redraw);
            && two.secrets == one.secrets && two.stored == one.stored
            && one.stored.Holding? && |one.stored.config.processes| > 0
            && SameAuth(one.stored.config.auth, Enable(c, secrets, setup, r).0.value)
            && (two.ok <==> x.fcv != "" || (FcvLine(lib, FcvOf(one.stored.config)).Some?
                                            && lib.make(x.mongodbVersion).Some?))
  {
    hide Enable, Advance;
    EnableStable(c, secrets, setup, r, redraw);
    SecondPass(lib, stored, x.(auth := Enable(c, secrets, setup, r).0.value));
    StoresAuth(lib, stored, x.(auth := Enable(c, secrets, setup, r).0.value));
  }
}
