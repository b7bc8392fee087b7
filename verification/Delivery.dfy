/** From the backend's choice to the device's gates: what one offers, the other does not refuse. */
module Delivery {
  import opened Common
  import opened SlotModel
  import Assembly
  import Backend
  import Paths
  import Selection
  import SlotRuns

  /** The signed manifest, as the backend recorded it. */
  predicate IsRecordOf(r: Backend.Manifest, m: Assembly.Manifest) {
    && r.bundleId == m.bundleId && r.platform == m.platform && r.channel == m.channel && r.schema == m.schema
    && r.runtimeVersion == m.runtimeVersion && r.bundleVersion == m.bundleVersion && r.minNativeBuild == m.minNativeBuild
  }

  /** What the device said about itself in its request. */
  predicate Describes(d: Selection.Device, app: Assembly.App, s: State) {
    && d.platform == "android" && d.channel == app.channel && d.runtimeVersion == app.bin.runtimeVersion
    && d.buildNumber == app.bin.nativeBuild && d.currentBundleVersion == CurrentVersion(s)
  }

  /**
   A device is offered nothing that its own gates refuse: what is left for them to decide is the signature, the
   app, the form of ids and paths, and whether the device has disabled the bundle.
   */
  lemma OfferedReleasePassesTheGates(rules: Selection.Rules, stored: seq<Backend.Record>, d: Selection.Device, pick: Backend.Record,
                                     app: Assembly.App, s: State, signatureOk: bool, m: Assembly.Manifest)
    requires Selection.IsPick(rules, stored, d, Some(pick)) && Backend.Mirrors(pick.bundleId, pick)
    requires IsRecordOf(pick.manifest, m) && Describes(d, app, s)
    ensures Assembly.Passes(app, s, signatureOk, m) <==>
              && signatureOk && m.appId == app.packageName
              && SlotRuns.SafeBundleId(m.bundleId) && m.bundleId !in s.disabledBundles
              && forall e | e in m.files :: Assembly.GoodEntry(e)
  {
  }

  /** A bundle id that is accepted names one directory, just below the one for all bundles. */
  lemma SafeIdIsOneDirectory(root: seq<string>, id: string)
    requires SlotRuns.SafeBundleId(id)
    ensures Paths.Resolve(root, id) == root + [id]
  {
    assert forall i | 0 <= i < |id| :: id[i] != '/';
    Paths.UncutIsOneSegment(Paths.ByCodePoint(), id, |id|);
    assert id[..|id|] == id && id != "." && id != "..";
    Paths.WalkGoes(root, Paths.Split(id));
  }
}
