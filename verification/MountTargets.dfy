// Mount targets as the controller prints them into the volume context and as
// the node plugin reads them back.
module MountTargets {
  import opened Wrappers
  import opened Text
  import opened NfsModel

  // The outcome of netip.ParseAddr, as far as the driver looks at it. The
  // parser itself is a parameter of everything below.
  datatype Address = Address(is6: bool, is4In6: bool, text: string)

  type AddressParser = string -> Option<Address>

  // The text of an address holds a colon when it is an IPv6 address, and holds
  // a comma only if the parsed text does (inside a zone name).
  ghost predicate WellBehaved(parse: AddressParser) {
    forall host ::
      match parse(host)
      case None => true
      case Some(address) =>
        && (address.is6 ==> ':' in address.text)
        && (',' in address.text ==> ',' in host)
  }

  const SPACE_ID := "space-id"
  const FILESYSTEM_ID := "filesystem-id"
  const MOUNT_TARGET := "mount-target"
  const MOUNT_TARGET_IPS := "mount-target-ips"
  const REGION := "region"
  const MTLS_MODE := "mtls-mode"

  // "" means that the target is not usable.
  function MountTargetIP(parse: AddressParser, target: string): string
  {
    match CutBefore(target, ":/")
    case None => ""
    case Some(host) =>
      match parse(Trim(host, {'[', ']'}))
      case None => ""
      case Some(address) => if !address.is6 || address.is4In6 then "" else address.text
  }

  predicate Usable(parse: AddressParser, target: string) {
    MountTargetIP(parse, target) != ""
  }

  lemma MountTargetIPProperties(parse: AddressParser, target: string)
    requires WellBehaved(parse) && Usable(parse, target)
    ensures ':' in MountTargetIP(parse, target)
    ensures ',' !in target ==> ',' !in MountTargetIP(parse, target)
  {
    var host := CutBefore(target, ":/").value;
    if ',' !in target {
      CutAvoids(target, ":/", ',');
      TrimAvoids(host, {'[', ']'}, ',');
    }
  }

  // The address is that of the target, and a native IPv6 address: neither an IPv4
  // address nor an IPv4-mapped one (RFC 4291, section 2.5.5.2).
  predicate NativeAddress(parse: AddressParser, target: string, ip: string) {
    match CutBefore(target, ":/")
    case None => false
    case Some(host) =>
      match parse(Trim(host, {'[', ']'}))
      case None => false
      case Some(address) => address.is6 && !address.is4In6 && address.text == ip
  }

  // The usable targets are exactly those with a native IPv6 address, which is
  // what is read from them.
  lemma UsableIffNative(parse: AddressParser, target: string, ip: string)
    requires ip != ""
    ensures MountTargetIP(parse, target) == ip <==> NativeAddress(parse, target, ip)
  {
  }

  function FQDN(filesystem: Filesystem): string {
    match filesystem.mountTargetFQDN
    case None => ""
    case Some(fqdn) => fqdn
  }

  function LookUp(values: map<string, string>, key: string): string {
    if key in values then values[key] else ""
  }

  // An empty mTLS mode leaves the key out.
  function VolumeContext(filesystem: Filesystem, mtlsMode: string): map<string, string>
  {
    var values := map[
      SPACE_ID := Itoa(filesystem.spaceID),
      FILESYSTEM_ID := Itoa(filesystem.id),
      MOUNT_TARGET := FQDN(filesystem),
      MOUNT_TARGET_IPS := Join(filesystem.mountTargetIPs, ","),
      REGION := filesystem.region];
    if mtlsMode != "" then values[MTLS_MODE := mtlsMode] else values
  }

  // validateFilesystemMountTarget; false is the FailedPrecondition outcome.
  predicate HasMountTarget(parse: AddressParser, filesystem: Filesystem) {
    FQDN(filesystem) != "" || exists target | target in filesystem.mountTargetIPs :: Usable(parse, target)
  }

  // The order-preserving filter-map of MountTargetIP.
  function UsableIPs(parse: AddressParser, targets: seq<string>): seq<string>
  {
    if targets == [] then []
    else
      var n := |targets| - 1;
      UsableIPs(parse, targets[..n]) + if Usable(parse, targets[n]) then [MountTargetIP(parse, targets[n])] else []
  }

  // "" means that no target is usable.
  function FirstUsable(parse: AddressParser, targets: seq<string>): string
  {
    if targets == [] then ""
    else
      var n := |targets| - 1;
      var source := FirstUsable(parse, targets[..n]);
      if source == "" && Usable(parse, targets[n]) then targets[n] else source
  }

  lemma {:induction false} FirstUsableIsFirst(parse: AddressParser, targets: seq<string>)
    ensures var source := FirstUsable(parse, targets);
            if source == "" then forall target | target in targets :: !Usable(parse, target)
            else exists i | 0 <= i < |targets| ::
                   && targets[i] == source && Usable(parse, source)
                   && forall j | 0 <= j < i :: !Usable(parse, targets[j])
  {
    EmptyIsUnusable(parse);
    if targets != [] {
      var n := |targets| - 1;
      var init := targets[..n];
      FirstUsableIsFirst(parse, init);
      var source := FirstUsable(parse, init);
      if source != "" {
        var i :| 0 <= i < n && init[i] == source && forall j | 0 <= j < i :: !Usable(parse, init[j]);
        assert targets[i] == source && forall j | 0 <= j < i :: init[j] == targets[j];
      } else {
        assert forall j | 0 <= j < n :: targets[j] == init[j] && init[j] in init;
      }
    }
  }

  lemma EmptyIsUnusable(parse: AddressParser)
    ensures !Usable(parse, "")
  {
  }

  lemma {:induction false} UsableIPsAreUsable(parse: AddressParser, targets: seq<string>)
    ensures |UsableIPs(parse, targets)| > 0 <==> exists target | target in targets :: Usable(parse, target)
    ensures forall ip | ip in UsableIPs(parse, targets) ::
              exists target | target in targets :: Usable(parse, target) && MountTargetIP(parse, target) == ip
  {
    if targets != [] {
      var n := |targets| - 1;
      UsableIPsAreUsable(parse, targets[..n]);
      assert targets == targets[..n] + [targets[n]];
      assert targets[n] in targets;
      forall ip | ip in UsableIPs(parse, targets)
        ensures exists target | target in targets :: Usable(parse, target) && MountTargetIP(parse, target) == ip
      {
        if ip in UsableIPs(parse, targets[..n]) {
          var target :| target in targets[..n] && Usable(parse, target) && MountTargetIP(parse, target) == ip;
          assert target in targets;
        } else {
          assert Usable(parse, targets[n]) && MountTargetIP(parse, targets[n]) == ip;
        }
      }
    }
  }

  // The addresses are read target by target, in order.
  lemma {:induction false} UsableIPsInTwo(parse: AddressParser, a: seq<string>, b: seq<string>)
    ensures UsableIPs(parse, a + b) == UsableIPs(parse, a) + UsableIPs(parse, b)
    decreases b
  {
    if b == [] {
      assert a + b == a;
    } else {
      var n := |b| - 1;
      UsableIPsInTwo(parse, a, b[..n]);
      assert (a + b)[..|a + b| - 1] == a + b[..n];
    }
  }

  lemma UsableIPsOfOne(parse: AddressParser, target: string)
    ensures var ips := UsableIPs(parse, [target]);
            if ips == [] then forall ip | ip != "" :: !NativeAddress(parse, target, ip)
            else |ips| == 1 && ips[0] != "" && NativeAddress(parse, target, ips[0])
  {
    assert [target][..0] == [];
  }

  // What the node plugin reads from a volume context: the source to mount and
  // the addresses to spread connections over.
  function NodeTargets(parse: AddressParser, values: map<string, string>): (string, seq<string>)
  {
    var fqdn := LookUp(values, MOUNT_TARGET);
    if fqdn != "" then (fqdn, [])
    else
      var targets := Split(LookUp(values, MOUNT_TARGET_IPS), ',');
      (FirstUsable(parse, targets), UsableIPs(parse, targets))
  }

  method NodeMountTargets(parse: AddressParser, values: map<string, string>)
    returns (source: string, ips: seq<string>)
    ensures (source, ips) == NodeTargets(parse, values)
  {
    var fqdn := LookUp(values, MOUNT_TARGET);
    if fqdn != "" {
      return fqdn, [];
    }
    var parts := Split(LookUp(values, MOUNT_TARGET_IPS), ',');
    var targets := new string[|parts|](i requires 0 <= i < |parts| => parts[i]);
    assert targets[..] == parts;
    var count;
    source, count := Compact(parse, targets);
    ips := targets[..count];
  }

  // The loop of nodeMountTargets: compacts the slice that it ranges over.
  method Compact(parse: AddressParser, targets: array<string>) returns (source: string, count: nat)
    modifies targets
    ensures count <= targets.Length
    ensures source == FirstUsable(parse, old(targets[..]))
    ensures targets[..count] == UsableIPs(parse, old(targets[..]))
  {
    source, count := "", 0;
    ghost var parts := targets[..];
    for i := 0 to targets.Length
      invariant count <= i
      invariant targets[i..] == parts[i..]
      invariant targets[..count] == UsableIPs(parse, parts[..i])
      invariant source == FirstUsable(parse, parts[..i])
    {
      TargetsStep(parse, parts, i);
      var target := targets[i];
      assert target == targets[i..][0] == parts[i];
      var ip := MountTargetIP(parse, target);
      if ip != "" {
        if source == "" {
          source := target;
        }
        targets[count] := ip;
        count := count + 1;
      }
      assert targets[i + 1..] == parts[i..][1..];
    }
    assert parts[..targets.Length] == parts;
  }

  lemma TargetsStep(parse: AddressParser, parts: seq<string>, i: nat)
    requires i < |parts|
    ensures FirstUsable(parse, parts[..i + 1]) ==
            var source := FirstUsable(parse, parts[..i]);
            if source == "" && Usable(parse, parts[i]) then parts[i] else source
    ensures UsableIPs(parse, parts[..i + 1]) ==
            UsableIPs(parse, parts[..i]) + if Usable(parse, parts[i]) then [MountTargetIP(parse, parts[i])] else []
  {
    assert parts[..i + 1][..i] == parts[..i];
  }

  // The first address belongs to the source.
  lemma {:induction false} SourceComesFirst(parse: AddressParser, targets: seq<string>)
    ensures var source, ips := FirstUsable(parse, targets), UsableIPs(parse, targets);
            if source == "" then ips == [] else ips != [] && NativeAddress(parse, source, ips[0])
    decreases targets
  {
    EmptyIsUnusable(parse);
    if targets != [] {
      SourceComesFirst(parse, targets[..|targets| - 1]);
    }
  }

  lemma ContextEntries(filesystem: Filesystem, mtlsMode: string)
    ensures var values := VolumeContext(filesystem, mtlsMode);
            && LookUp(values, MOUNT_TARGET) == FQDN(filesystem)
            && LookUp(values, MOUNT_TARGET_IPS) == Join(filesystem.mountTargetIPs, ",")
            && LookUp(values, MTLS_MODE) == mtlsMode
  {
    assert |MOUNT_TARGET| == 12 && |MOUNT_TARGET_IPS| == 16 && |REGION| == 6 && |MTLS_MODE| == 9;
  }

  // What the node reads from any printed context: the FQDN if there is one, and
  // otherwise the usable ones among the comma-separated parts of the targets.
  lemma NodeReadsParts(parse: AddressParser, filesystem: Filesystem, mtlsMode: string)
    ensures NodeTargets(parse, VolumeContext(filesystem, mtlsMode)) ==
            if FQDN(filesystem) != "" then (FQDN(filesystem), [])
            else
              var parts := Tokens(filesystem.mountTargetIPs, ',');
              (FirstUsable(parse, parts), UsableIPs(parse, parts))
  {
    ContextEntries(filesystem, mtlsMode);
    if filesystem.mountTargetIPs == [] {
      EmptyIsUnusable(parse);
      assert Split("", ',') == [""] && [""][..0] == [];
      assert FirstUsable(parse, [""]) == "" && UsableIPs(parse, [""]) == [];
    } else {
      SplitJoinTokens(filesystem.mountTargetIPs, ',');
    }
  }

  // The source that the controller answers for: the FQDN, or else the first
  // usable target; "" if it rejects the filesystem.
  function SourceOf(parse: AddressParser, filesystem: Filesystem): string {
    if FQDN(filesystem) != "" then FQDN(filesystem) else FirstUsable(parse, filesystem.mountTargetIPs)
  }

  lemma {:induction false} FirstUsableInTwo(parse: AddressParser, a: seq<string>, b: seq<string>)
    ensures FirstUsable(parse, a + b) == if FirstUsable(parse, a) != "" then FirstUsable(parse, a)
                                         else FirstUsable(parse, b)
    decreases b
  {
    hide Usable;
    if b == [] {
      assert a + b == a;
    } else {
      var n := |b| - 1;
      FirstUsableInTwo(parse, a, b[..n]);
      assert (a + b)[..|a + b| - 1] == a + b[..n];
    }
  }

  // Targets around the first usable one, at index k
  predicate FirstUsableAt(parse: AddressParser, targets: seq<string>, k: nat) {
    k < |targets| && Usable(parse, targets[k]) && forall j | 0 <= j < k :: !Usable(parse, targets[j])
  }

  // The parts of the targets up to the first usable one lead to that target.
  predicate PartsLeadTo(parse: AddressParser, targets: seq<string>, k: nat)
    requires k < |targets|
  {
    ',' !in targets[k] && FirstUsable(parse, Tokens(targets[..k], ',')) in ["", targets[k]]
  }

  // When splitting at commas leaves the source alone: the first usable target
  // holds no comma, and no usable part of another text comes before it; and
  // where no target is usable, no part of one is.
  ghost predicate CommasAreHarmless(parse: AddressParser, targets: seq<string>) {
    && (forall k: nat | FirstUsableAt(parse, targets, k) :: PartsLeadTo(parse, targets, k))
    && ((forall target | target in targets :: !Usable(parse, target)) ==>
          forall part | part in Tokens(targets, ',') :: !Usable(parse, part))
  }

  // Reading the parts, split at a target
  lemma PartsInThree(parse: AddressParser, targets: seq<string>, k: nat)
    requires k < |targets|
    ensures var parts := Tokens(targets[..k], ',');
            var rest := Split(targets[k], ',') + Tokens(targets[k + 1..], ',');
            && Tokens(targets, ',') == parts + rest
            && FirstUsable(parse, Tokens(targets, ',')) ==
               if FirstUsable(parse, parts) != "" then FirstUsable(parse, parts) else FirstUsable(parse, rest)
  {
    hide Usable, Split, FirstUsable, Tokens;
    assert targets == targets[..k] + targets[k..];
    TokensInTwo(targets[..k], targets[k..], ',');
    TokensFrom(targets, k, ',');
    FirstUsableInTwo(parse, Tokens(targets[..k], ','), Tokens(targets[k..], ','));
  }

  lemma UsableComesFirst(parse: AddressParser, target: string, rest: seq<string>)
    requires Usable(parse, target)
    ensures FirstUsable(parse, [target] + rest) == target != ""
  {
    EmptyIsUnusable(parse);
    FirstUsableInTwo(parse, [target], rest);
    TargetsStep(parse, [target], 0);
    assert [target][..0] == [] && [target][..1] == [target];
  }

  // Reading the parts from the first usable target on
  lemma PartsFrom(parse: AddressParser, targets: seq<string>, k: nat)
    requires FirstUsableAt(parse, targets, k)
    ensures FirstUsable(parse, targets) == targets[k] != ""
    ensures (FirstUsable(parse, Tokens(targets, ',')) == targets[k]) <==> PartsLeadTo(parse, targets, k)
  {
    hide Usable, Tokens, Split, FirstUsable;
    var target := targets[k];
    PartsInThree(parse, targets, k);
    FirstUsableIsFirst(parse, targets);
    EmptyIsUnusable(parse);
    if ',' in target {
      TokensAvoid(targets, ',');
      FirstUsableIsFirst(parse, Tokens(targets, ','));
    } else {
      SplitWithoutSeparator(target, ',');
      UsableComesFirst(parse, target, Tokens(targets[k + 1..], ','));
    }
  }

  // The node mounts the source that the controller answers for, if and only if
  // there is an FQDN or the commas in the targets are harmless.
  lemma AgreementIff(parse: AddressParser, filesystem: Filesystem, mtlsMode: string)
    ensures (NodeTargets(parse, VolumeContext(filesystem, mtlsMode)).0 == SourceOf(parse, filesystem)) <==>
            (FQDN(filesystem) != "" || CommasAreHarmless(parse, filesystem.mountTargetIPs))
    ensures SourceOf(parse, filesystem) != "" <==> HasMountTarget(parse, filesystem)
  {
    hide Usable, NodeTargets, VolumeContext;
    var targets := filesystem.mountTargetIPs;
    EmptyIsUnusable(parse);
    NodeReadsParts(parse, filesystem, mtlsMode);
    FirstUsableIsFirst(parse, targets);
    FirstUsableIsFirst(parse, Tokens(targets, ','));
    if FirstUsable(parse, targets) != "" {
      var k: nat :| k < |targets| && targets[k] == FirstUsable(parse, targets) && Usable(parse, targets[k])
                    && forall j | 0 <= j < k :: !Usable(parse, targets[j]);
      assert FirstUsableAt(parse, targets, k) && targets[k] in targets;
      PartsFrom(parse, targets, k);
    } else {
      forall k: nat ensures !FirstUsableAt(parse, targets, k) {
        assert k < |targets| ==> targets[k] in targets;
      }
    }
  }

  // Without commas in targets the two sides agree: the source is the FQDN if
  // there is one, and otherwise the first usable target of the filesystem, whose
  // address comes first and is native.
  lemma ControllerAndNodeAgree(parse: AddressParser, filesystem: Filesystem, mtlsMode: string)
    requires forall target | target in filesystem.mountTargetIPs :: ',' !in target
    ensures var (source, ips) := NodeTargets(parse, VolumeContext(filesystem, mtlsMode));
            && (source != "" <==> HasMountTarget(parse, filesystem))
            && if FQDN(filesystem) != "" then source == FQDN(filesystem) && ips == []
               else source == FirstUsable(parse, filesystem.mountTargetIPs)
                    && ips == UsableIPs(parse, filesystem.mountTargetIPs)
                    && (source != "" ==> ips != [] && NativeAddress(parse, source, ips[0]))
  {
    TokensWithoutSeparator(filesystem.mountTargetIPs, ',');
    NodeReadsParts(parse, filesystem, mtlsMode);
    FirstUsableIsFirst(parse, filesystem.mountTargetIPs);
    SourceComesFirst(parse, filesystem.mountTargetIPs);
  }

  lemma {:induction false} CutsAtFirst(host: string, path: string)
    requires '/' !in host
    ensures CutBefore(host + (":/" + path), ":/") == Some(host)
  {
    var target := host + (":/" + path);
    if host == "" {
      assert target == ":/" + path;
    } else {
      CutsAtFirst(host[1..], path);
      assert target[1..] == host[1..] + (":/" + path) && target[1] != '/';
      assert [host[0]] + host[1..] == host;
    }
  }

  lemma {:induction false} NothingToCut(text: string)
    requires '/' !in text
    ensures CutBefore(text, ":/") == None
  {
    if text != "" {
      NothingToCut(text[1..]);
    }
  }

  // Commas that are not harmless, for a parser that knows one address; any
  // parser that knows this address would do.
  function Loopback(host: string): Option<Address> {
    if host == "::1" then Some(Address(true, false, "::1")) else None
  }

  lemma LoopbackTarget(host: string, path: string)
    requires host in ["x,::1", "::1"]
    ensures MountTargetIP(Loopback, host + (":/" + path)) == if host == "::1" then "::1" else ""
  {
    hide CutBefore, Trim;
    CutsAtFirst(host, path);
    TrimOfOthers(host, {'[', ']'});
    assert |"x,::1"| == 5 && |"::1"| == 3;
  }

  lemma LoopbackName(text: string)
    requires '/' !in text
    ensures MountTargetIP(Loopback, text) == ""
  {
    hide CutBefore, Trim;
    NothingToCut(text);
  }

  // What the node reads from a single target with a comma between a and b.
  lemma NodeReadsTwo(parse: AddressParser, filesystem: Filesystem, a: string, b: string)
    requires FQDN(filesystem) == "" && filesystem.mountTargetIPs == [a + "," + b] && ',' !in a && ',' !in b
    ensures var (source, ips) := NodeTargets(parse, VolumeContext(filesystem, ""));
            var first, second := MountTargetIP(parse, a), MountTargetIP(parse, b);
            && source == (if first != "" then a else if second != "" then b else "")
            && ips == (if first != "" then [first] else []) + if second != "" then [second] else []
  {
    hide Split, MountTargetIP, NodeTargets, VolumeContext;
    NodeReadsParts(parse, filesystem, "");
    SplitWithoutSeparator(a, ',');
    SplitWithoutSeparator(b, ',');
    SplitConcat(a, b, ',');
    var parts := [a, b];
    assert Tokens(filesystem.mountTargetIPs, ',') == parts by {
      assert filesystem.mountTargetIPs[1..] == [];
    }
    EmptyIsUnusable(parse);
    TargetsStep(parse, parts, 0);
    TargetsStep(parse, parts, 1);
    assert parts[..0] == [] && parts[..2] == parts;
  }

  // The controller rejects this target, and the node mounts its second part.
  lemma CommasBreakAcceptance(filesystem: Filesystem)
    requires FQDN(filesystem) == "" && filesystem.mountTargetIPs == ["x,::1:/"]
    ensures WellBehaved(Loopback) && !HasMountTarget(Loopback, filesystem)
    ensures NodeTargets(Loopback, VolumeContext(filesystem, "")) == ("::1:/", ["::1"])
  {
    hide NodeTargets, VolumeContext, MountTargetIP;
    LoopbackTarget("x,::1", "");
    LoopbackTarget("::1", "");
    LoopbackName("x");
    assert "x,::1" + (":/" + "") == "x,::1:/" && "::1" + (":/" + "") == "::1:/" && "::1"[0] == ':';
    assert "x" + "," + "::1:/" == "x,::1:/";
    NodeReadsTwo(Loopback, filesystem, "x", "::1:/");
    assert [] + ["::1"] == ["::1"];
  }

  // The controller accepts this target, and the node mounts another export.
  lemma CommasBreakSource(filesystem: Filesystem)
    requires FQDN(filesystem) == "" && filesystem.mountTargetIPs == ["::1:/a,b"]
    ensures HasMountTarget(Loopback, filesystem) && SourceOf(Loopback, filesystem) == "::1:/a,b"
    ensures NodeTargets(Loopback, VolumeContext(filesystem, "")) == ("::1:/a", ["::1"])
  {
    hide NodeTargets, VolumeContext, MountTargetIP;
    LoopbackTarget("::1", "a,b");
    LoopbackTarget("::1", "a");
    LoopbackName("b");
    assert "::1" + (":/" + "a,b") == "::1:/a,b" && "::1" + (":/" + "a") == "::1:/a";
    assert "::1:/a" + "," + "b" == "::1:/a,b" == filesystem.mountTargetIPs[0];
    FirstUsableIsFirst(Loopback, filesystem.mountTargetIPs);
    NodeReadsTwo(Loopback, filesystem, "::1:/a", "b");
    assert ["::1"] + [] == ["::1"];
  }
}
