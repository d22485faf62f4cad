// Mount options of a staged volume: the defaults, and the rewrite of
// remoteports=dns to explicit addresses. An option is one mount flag, which may
// itself hold several comma-separated tokens.
module StageOptions {
  import opened Text
  import opened MountTargets

  const REMOTE_PORTS_DNS := "remoteports=dns"
  const DEFAULT_OPTIONS := ["vers=4.1", "proto=tcp6"]

  function RemotePorts(ips: seq<string>): string {
    "remoteports=" + Join(ips, "~")
  }

  function RewriteToken(ips: seq<string>, token: string): string {
    if token == REMOTE_PORTS_DNS then RemotePorts(ips) else token
  }

  function RewriteTokens(ips: seq<string>, tokens: seq<string>): seq<string> {
    seq(|tokens|, i requires 0 <= i < |tokens| => RewriteToken(ips, tokens[i]))
  }

  function RewriteOption(ips: seq<string>, option: string): string {
    Join(RewriteTokens(ips, Split(option, ',')), ",")
  }

  // Without addresses the loop is not entered at all.
  function RewriteOptions(ips: seq<string>, options: seq<string>): seq<string> {
    if ips == [] then options
    else seq(|options|, i requires 0 <= i < |options| => RewriteOption(ips, options[i]))
  }

  function OptionsFor(flags: seq<string>, ips: seq<string>): seq<string> {
    RewriteOptions(ips, if flags == [] then DEFAULT_OPTIONS else flags)
  }

  // The two nested loops, which overwrite parts and options in place.
  method RewriteInPlace(options: array<string>, ips: seq<string>)
    modifies options
    ensures options[..] == RewriteOptions(ips, old(options[..]))
  {
    if |ips| == 0 {
      return;
    }
    for i := 0 to options.Length
      invariant forall k | 0 <= k < i :: options[k] == RewriteOption(ips, old(options[k]))
      invariant forall k | i <= k < options.Length :: options[k] == old(options[k])
    {
      var option := options[i];
      if Contains(option, REMOTE_PORTS_DNS) {
        var parts, changed := ReplaceParts(option, ips);
        if changed {
          options[i] := Join(parts, ",");
        } else {
          JoinSplit(option, ',');
        }
      } else {
        SkippedOption(ips, option);
      }
    }
  }

  method ReplaceParts(option: string, ips: seq<string>) returns (result: seq<string>, changed: bool)
    ensures result == RewriteTokens(ips, Split(option, ','))
    ensures !changed ==> result == Split(option, ',')
  {
    var split := Split(option, ',');
    var parts := new string[|split|](j requires 0 <= j < |split| => split[j]);
    changed := false;
    for j := 0 to parts.Length
      invariant forall k | 0 <= k < j :: parts[k] == RewriteToken(ips, split[k])
      invariant forall k | j <= k < parts.Length :: parts[k] == split[k]
      invariant !changed ==> parts[..] == split
    {
      var part := parts[j];
      if part == REMOTE_PORTS_DNS {
        parts[j] := RemotePorts(ips);
        changed := true;
      }
    }
    result := parts[..];
  }

  // The strings.Contains test only skips options that the rewrite keeps.
  lemma SkippedOption(ips: seq<string>, option: string)
    requires !Contains(option, REMOTE_PORTS_DNS)
    ensures RewriteOption(ips, option) == option
  {
    var tokens := Split(option, ',');
    forall i | 0 <= i < |tokens| ensures RewriteToken(ips, tokens[i]) == tokens[i] {
      if tokens[i] == REMOTE_PORTS_DNS {
        PartIsContained(option, ',', tokens[i]);
      }
    }
    assert RewriteTokens(ips, tokens) == tokens;
    JoinSplit(option, ',');
  }

  lemma RewriteOptionTokens(ips: seq<string>, option: string)
    requires forall ip | ip in ips :: ',' !in ip
    ensures Split(RewriteOption(ips, option), ',') == RewriteTokens(ips, Split(option, ','))
  {
    JoinAvoids(ips, "~", ',');
    assert forall c | c in "remoteports=" :: c != ',';
    SplitJoin(RewriteTokens(ips, Split(option, ',')), ',');
  }

  lemma RewriteTokensConcat(ips: seq<string>, a: seq<string>, b: seq<string>)
    ensures RewriteTokens(ips, a + b) == RewriteTokens(ips, a) + RewriteTokens(ips, b)
  {
  }

  // Seen as tokens, the rewrite replaces exactly the tokens remoteports=dns and
  // keeps all others, their order and their number.
  lemma {:induction false} RewriteIsTokenwise(ips: seq<string>, options: seq<string>)
    requires ips != [] && forall ip | ip in ips :: ',' !in ip
    ensures |RewriteOptions(ips, options)| == |options|
    ensures Tokens(RewriteOptions(ips, options), ',') == RewriteTokens(ips, Tokens(options, ','))
  {
    if options != [] {
      var rest := options[1..];
      RewriteIsTokenwise(ips, rest);
      RewriteOptionTokens(ips, options[0]);
      var rewritten := RewriteOptions(ips, options);
      assert rewritten[1..] == RewriteOptions(ips, rest);
      RewriteTokensConcat(ips, Split(options[0], ','), Tokens(rest, ','));
    }
  }

  // The addresses that the node reads from a context are never confused with
  // the word dns.
  lemma AddressesAreNotDNS(parse: AddressParser, targets: seq<string>)
    requires WellBehaved(parse)
    requires forall target | target in targets :: ',' !in target
    ensures var ips := UsableIPs(parse, targets);
            ips != [] ==> RemotePorts(ips) != REMOTE_PORTS_DNS && forall ip | ip in ips :: ',' !in ip && ':' in ip
  {
    var ips := UsableIPs(parse, targets);
    UsableIPsAreUsable(parse, targets);
    forall ip | ip in ips ensures ',' !in ip && ':' in ip {
      var target :| target in targets && Usable(parse, target) && MountTargetIP(parse, target) == ip;
      MountTargetIPProperties(parse, target);
    }
    if ips != [] {
      assert ips[0] in ips;
      FirstIsPrefix(ips, "~");
      assert ':' in Join(ips, "~");
      assert ':' in RemotePorts(ips);
      assert forall c | c in REMOTE_PORTS_DNS :: c != ':';
    }
  }

  lemma FirstIsPrefix(parts: seq<string>, sep: string)
    requires parts != []
    ensures parts[0] <= Join(parts, sep)
  {
  }

  // After the rewrite no token remoteports=dns is left, and rewriting again
  // changes nothing.
  lemma RewriteIsComplete(ips: seq<string>, options: seq<string>)
    requires ips != [] && forall ip | ip in ips :: ',' !in ip
    requires RemotePorts(ips) != REMOTE_PORTS_DNS
    ensures REMOTE_PORTS_DNS !in Tokens(RewriteOptions(ips, options), ',')
    ensures RewriteOptions(ips, RewriteOptions(ips, options)) == RewriteOptions(ips, options)
  {
    RewriteIsTokenwise(ips, options);
    var once := RewriteOptions(ips, options);
    forall i | 0 <= i < |once| ensures RewriteOption(ips, once[i]) == once[i] {
      RewriteOptionTokens(ips, options[i]);
      var tokens := Split(once[i], ',');
      assert RewriteTokens(ips, tokens) == tokens;
      JoinSplit(once[i], ',');
    }
    assert RewriteOptions(ips, once) == once;
  }
}
