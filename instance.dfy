/** Instance creation: the windowing library's required extensions, extended
    on macOS with the portability extensions when the Vulkan driver is recent
    enough, and the create flags that go with them. */
module InstanceCreation {
  import opened Versions
  import opened Vk

  /** From this driver version on, macOS needs the portability extensions. */
  const PortabilityMacOSVersion: Version := Version(1, 3, 216)

  /** The two extensions pushed on the portability path, in push order. */
  const PortabilityExtensions: seq<ExtensionName> :=
    [KhrGetPhysicalDeviceProperties2, KhrPortabilityEnumeration]

  /** The condition of the portability branch once the version is known. */
  predicate PortabilityRequired(isMacOS: bool, version: Version) {
    isMacOS && LessEq(PortabilityMacOSVersion, version)
  }

  /** The extension list and flags handed to instance creation. */
  datatype Negotiated = Negotiated(extensions: seq<ExtensionName>, flags: InstanceCreateFlags)

  /** The parts of `InstanceCreateInfo` that negotiation decides. The fixed
      application information is not part of this model. */
  datatype InstanceCreateInfo = InstanceCreateInfo(enabledExtensions: seq<ExtensionName>, flags: InstanceCreateFlags)

  /** Negotiation of instance extensions and flags. `version` is the answer
      the driver gives if its version is asked for; `queried` says whether it
      was asked, which the short-circuiting `&&` does only on macOS. */
  method Negotiate(windowExts: seq<ExtensionName>, isMacOS: bool, version: Result<Version>)
    returns (r: Result<Negotiated>, queried: bool)
    ensures queried == isMacOS
    // a failed version query is the only failure, and it is propagated as is
    ensures r.Err? <==> queried && version.Err?
    ensures r.Err? ==> r.error == version.error
    // the windowing extensions come first, unchanged and in order
    ensures r.Ok? ==> |r.value.extensions| >= |windowExts|
                      && r.value.extensions[..|windowExts|] == windowExts
    // the portability branch appends exactly the two extensions and sets the flag
    ensures r.Ok? && version.Ok? && PortabilityRequired(isMacOS, version.value) ==>
              r.value.extensions[|windowExts|..] == PortabilityExtensions
              && r.value.flags == {EnumeratePortabilityKhr}
    // otherwise nothing is appended and the flags are empty
    ensures r.Ok? && !(version.Ok? && PortabilityRequired(isMacOS, version.value)) ==>
              r.value.extensions == windowExts && r.value.flags == {}
    // the flag is set exactly when extensions were appended
    ensures r.Ok? ==> (EnumeratePortabilityKhr in r.value.flags
                       <==> |r.value.extensions| > |windowExts|)
  {
    var extensions := windowExts;
    var flags: InstanceCreateFlags;
    queried := isMacOS;
    if isMacOS {
      if version.Err? {
        return Err(version.error), queried;
      }
    }
    if isMacOS && LessEq(PortabilityMacOSVersion, version.value) {
      extensions := extensions + [KhrGetPhysicalDeviceProperties2];
      extensions := extensions + [KhrPortabilityEnumeration];
      flags := {EnumeratePortabilityKhr};
    } else {
      flags := {};
    }
    r := Ok(Negotiated(extensions, flags));
  }

  /** `create_instance`: negotiate, then ask the driver to create the
      instance. `driverResult` is what the driver's instance creation would
      return; `attempted` is the create info passed to it, or None when
      creation was never attempted. */
  method CreateInstance(windowExts: seq<ExtensionName>, isMacOS: bool, version: Result<Version>,
                        driverResult: Result<Instance>)
    returns (r: Result<Instance>, attempted: Option<InstanceCreateInfo>)
    // creation is skipped exactly when the macOS version query failed
    ensures attempted.None? <==> isMacOS && version.Err?
    ensures attempted.None? ==> r == Err(version.error)
    ensures attempted.Some? ==> r == driverResult
    // what is passed to the driver
    ensures attempted.Some? ==>
              var info := attempted.value;
              |info.enabledExtensions| >= |windowExts|
              && info.enabledExtensions[..|windowExts|] == windowExts
              && (if version.Ok? && PortabilityRequired(isMacOS, version.value)
                  then info.enabledExtensions == windowExts + PortabilityExtensions
                       && info.flags == {EnumeratePortabilityKhr}
                  else info.enabledExtensions == windowExts && info.flags == {})
  {
    var negotiated, queried := Negotiate(windowExts, isMacOS, version);
    if negotiated.Err? {
      return Err(negotiated.error), None;
    }
    var n := negotiated.value;
    assert n.extensions == n.extensions[..|windowExts|] + n.extensions[|windowExts|..];
    attempted := Some(InstanceCreateInfo(n.extensions, n.flags));
    r := driverResult;
  }

  /** The threshold is monotone: a driver newer than one that needs the
      portability extensions needs them too. */
  lemma PortabilityMonotone(isMacOS: bool, v: Version, w: Version)
    requires PortabilityRequired(isMacOS, v) && LessEq(v, w)
    ensures PortabilityRequired(isMacOS, w)
  {
    LessEqTransitive(PortabilityMacOSVersion, v, w);
  }

  /** Off macOS the version plays no part. */
  lemma PortabilityOnlyOnMacOS(v: Version)
    ensures !PortabilityRequired(false, v)
  {}
}
