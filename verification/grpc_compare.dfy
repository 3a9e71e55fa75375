/** Comparison of a Primary and a Shadow stream result (internal/grpcproxy/compare.go). */
module GrpcCompare {
  import opened Common
  import opened GrpcStream
  import GoText

  /** The comparison mode after trimming and lower-casing. */
  datatype Mode = StatusOnly | StatusMetadata | MessageCount | MessageHash | Unsupported(name: string)

  datatype Difference =
    | StatusDiff(primary: Code, shadow: Code)
    | HeaderDiff(key: string)
    | TrailerDiff(key: string)
    | CountDiff(primaryCount: nat, shadowCount: nat)
    | HashDiff(primaryHash: string, shadowHash: string)

  datatype Comparison = Skipped(reason: string) | Errored(err: string) | Same | Differs(diffs: seq<Difference>)

  /** The parts of the routing and policy decisions that matter here; `offReason` is set when a rule turns comparison off. */
  datatype Policy = Policy(off: bool, offReason: string, doShadow: bool, mode: Mode, keys: seq<string>)

  function IncompleteShadow(s: StreamResult): Option<string> {
    if s.skipReason != "" then Some("shadow incomplete: " + s.skipReason)
    else if !s.started then Some("shadow incomplete: not_started")
    else if !s.complete then Some("shadow incomplete: no_final_status")
    else None
  }

  function Values(md: Metadata, key: string): seq<string> {
    if key in md then md[key] else []
  }

  function HeaderValues(r: StreamResult, key: string): seq<string> {
    Values(r.header, key)
  }

  function TrailerValues(r: StreamResult, key: string): seq<string> {
    if key == "grpc-status" then [GoText.Decimal(r.statusCode)]
    else if key == "grpc-message" then if r.statusMessage == "" then [] else [r.statusMessage]
    else Values(r.trailer, key)
  }

  /** `streamMessageHash` */
  function HashText(digest: Digest, r: StreamResult): string {
    if r.messageHash != "" then r.messageHash else HashOf(digest, [])
  }

  function StatusDiffs(p: StreamResult, s: StreamResult): seq<Difference> {
    if p.statusCode == s.statusCode then [] else [StatusDiff(p.statusCode, s.statusCode)]
  }

  function MetadataDiffs(p: StreamResult, s: StreamResult, keys: seq<string>): seq<Difference> {
    if keys == [] then []
    else
      (if HeaderValues(p, keys[0]) == HeaderValues(s, keys[0]) then [] else [HeaderDiff(keys[0])])
      + (if TrailerValues(p, keys[0]) == TrailerValues(s, keys[0]) then [] else [TrailerDiff(keys[0])])
      + MetadataDiffs(p, s, keys[1..])
  }

  function CountDiffs(p: StreamResult, s: StreamResult): seq<Difference> {
    if p.messageCount == s.messageCount then [] else [CountDiff(p.messageCount, s.messageCount)]
  }

  function HashDiffs(digest: Digest, p: StreamResult, s: StreamResult): seq<Difference> {
    if HashText(digest, p) == HashText(digest, s) then [] else [HashDiff(HashText(digest, p), HashText(digest, s))]
  }

  function CompareResults(digest: Digest, mode: Mode, keys: seq<string>, p: StreamResult, s: StreamResult): Comparison {
    if mode.Unsupported? then Errored("unsupported gRPC compare mode " + mode.name)
    else
      var extra := match mode
        case StatusMetadata => MetadataDiffs(p, s, keys)
        case MessageCount => CountDiffs(p, s)
        case MessageHash => HashDiffs(digest, p, s)
        case _ => [];
      var diffs := StatusDiffs(p, s) + extra;
      if diffs == [] then Same else Differs(diffs)
  }

  /** `compareRPCResult` */
  function CompareRpc(digest: Digest, policy: Policy, p: StreamResult, s: StreamResult): Comparison {
    if policy.off then Skipped(if policy.offReason == "" then "grpc_rule" else policy.offReason)
    else if !policy.doShadow then Skipped(if s.skipReason == "" then "no_shadow" else s.skipReason)
    else if IncompleteShadow(s).Some? then Errored(IncompleteShadow(s).value)
    else CompareResults(digest, policy.mode, policy.keys, p, s)
  }

  lemma {:induction false} MetadataAgree(p: StreamResult, s: StreamResult, keys: seq<string>)
    ensures MetadataDiffs(p, s, keys) == [] <==>
            forall i :: 0 <= i < |keys| ==> HeaderValues(p, keys[i]) == HeaderValues(s, keys[i]) && TrailerValues(p, keys[i]) == TrailerValues(s, keys[i])
  {
    if keys != [] {
      MetadataAgree(p, s, keys[1..]);
      assert keys == [keys[0]] + keys[1..];
    }
  }

  predicate Agree(digest: Digest, mode: Mode, keys: seq<string>, p: StreamResult, s: StreamResult) {
    && p.statusCode == s.statusCode
    && (mode.StatusMetadata? ==> forall i :: 0 <= i < |keys| ==>
          HeaderValues(p, keys[i]) == HeaderValues(s, keys[i]) && TrailerValues(p, keys[i]) == TrailerValues(s, keys[i]))
    && (mode.MessageCount? ==> p.messageCount == s.messageCount)
    && (mode.MessageHash? ==> HashText(digest, p) == HashText(digest, s))
  }

  /** A verdict is given exactly for a selected, started and complete shadow without a skip reason, and it is "same" exactly when both sides agree on what the mode looks at. */
  lemma VerdictExact(digest: Digest, policy: Policy, p: StreamResult, s: StreamResult)
    ensures
      var verdict := CompareRpc(digest, policy, p, s);
      && (verdict.Same? || verdict.Differs? <==>
            !policy.off && policy.doShadow && !policy.mode.Unsupported? && s.skipReason == "" && s.started && s.complete)
      && (verdict.Same? ==> Agree(digest, policy.mode, policy.keys, p, s))
      && (verdict.Differs? ==> !Agree(digest, policy.mode, policy.keys, p, s))
  {
    MetadataAgree(p, s, policy.keys);
  }

  /** `normalizeCompareMetadataKeys`: the distinct nonempty normalized keys in order, however often they are configured. */
  method NormalizeKeys(normalize: string -> string, keys: seq<string>) returns (result: seq<string>)
    ensures result == GoText.SortedKeys(set k | k in keys && normalize(k) != "" :: normalize(k))
  {
    var seen: set<string> := {};
    result := [];
    var i := 0;
    while i < |keys|
      invariant 0 <= i <= |keys|
      invariant GoText.Distinct(result)
      invariant forall k :: k in result <==> k in seen
      invariant forall k :: k in seen <==> exists j :: 0 <= j < i && normalize(keys[j]) == k && k != ""
    {
      var key := normalize(keys[i]);
      if key != "" && key !in seen {
        seen := seen + {key};
        result := result + [key];
      }
      i := i + 1;
    }
    ghost var wanted := set k | k in keys && normalize(k) != "" :: normalize(k);
    forall k ensures k in result <==> k in wanted {
      if k in seen {
        var j :| 0 <= j < i && normalize(keys[j]) == k && k != "";
        assert keys[j] in keys;
      }
    }
    GoText.SortStringsSorts(result);
    GoText.SortedUnique(GoText.SortStrings(result), GoText.SortedKeys(wanted));
    result := GoText.SortStrings(result);
  }
}
