// Region discovery: the controller asks Kubernetes for one node and caches the
// first region it finds.
module RegionCache {
  import opened Wrappers
  import opened MountTargets

  const REGION_LABEL := "topology.kubernetes.io/region"
  const BETA_REGION_LABEL := "failure-domain.beta.kubernetes.io/region"

  datatype MetadataError = ListFailed | NoNodes | RegionNotFound

  // An answer to a node listing: an error, or the labels of the listed nodes
  datatype NodeList = ListError | Nodes(items: seq<map<string, string>>)

  function RegionFromNode(labels: map<string, string>): (r: Result<string, MetadataError>)
    ensures r.Success? ==> r.value != ""
    ensures r.Success? <==> LookUp(labels, REGION_LABEL) != "" || LookUp(labels, BETA_REGION_LABEL) != ""
    ensures LookUp(labels, REGION_LABEL) != "" ==> r == Success(LookUp(labels, REGION_LABEL))
    ensures LookUp(labels, REGION_LABEL) == "" && r.Success? ==> r == Success(LookUp(labels, BETA_REGION_LABEL))
  {
    if LookUp(labels, REGION_LABEL) != "" then Success(LookUp(labels, REGION_LABEL))
    else if LookUp(labels, BETA_REGION_LABEL) != "" then Success(LookUp(labels, BETA_REGION_LABEL))
    else Failure(RegionNotFound)
  }

  function RegionFromList(list: NodeList): (r: Result<string, MetadataError>)
    ensures r.Success? ==> r.value != ""
  {
    match list
    case ListError => Failure(ListFailed)
    case Nodes(items) => if |items| == 0 then Failure(NoNodes) else RegionFromNode(items[0])
  }

  class MetadataService {
    var region: string
    // The answers that the API server will give; after them it is unreachable.
    var answers: seq<NodeList>

    constructor (answers: seq<NodeList>)
      ensures region == "" && this.answers == answers
    {
      region, this.answers := "", answers;
    }

    method ListNodes() returns (list: NodeList)
      modifies this`answers
      ensures list == (if old(answers) == [] then ListError else old(answers)[0])
      ensures answers == if old(answers) == [] then [] else old(answers)[1..]
    {
      if answers == [] {
        return ListError;
      }
      list := answers[0];
      answers := answers[1..];
    }

    method Region() returns (r: Result<string, MetadataError>)
      modifies this
      ensures (region, answers, r) == AskRegion(old(region), old(answers))
    {
      if region != "" {
        return Success(region);
      }
      var list := ListNodes();
      if list.ListError? {
        return Failure(ListFailed);
      }
      if |list.items| == 0 {
        return Failure(NoNodes);
      }
      r := RegionFromNode(list.items[0]);
      if r.Success? {
        region := r.value;
      }
    }
  }

  // One call: the cache and the remaining answers after it, and its result
  function AskRegion(cache: string, answers: seq<NodeList>): (string, seq<NodeList>, Result<string, MetadataError>)
  {
    if cache != "" then (cache, answers, Success(cache))
    else
      var r := RegionFromList(if answers == [] then ListError else answers[0]);
      (if r.Success? then r.value else cache, if answers == [] then [] else answers[1..], r)
  }

  // The results of a number of calls in a row, and the answers they leave over
  function Ask(cache: string, answers: seq<NodeList>, calls: nat): (results: seq<Result<string, MetadataError>>)
    ensures |results| == calls
    decreases calls
  {
    if calls == 0 then []
    else
      var (cache', answers', r) := AskRegion(cache, answers);
      [r] + Ask(cache', answers', calls - 1)
  }

  function Unasked(cache: string, answers: seq<NodeList>, calls: nat): seq<NodeList>
    decreases calls
  {
    if calls == 0 then answers
    else
      var (cache', answers', _) := AskRegion(cache, answers);
      Unasked(cache', answers', calls - 1)
  }

  lemma {:induction false} CachedRegionStays(region: string, answers: seq<NodeList>, calls: nat)
    requires region != ""
    ensures forall i | 0 <= i < calls :: Ask(region, answers, calls)[i] == Success(region)
    ensures Unasked(region, answers, calls) == answers
    decreases calls
  {
    if calls > 0 {
      CachedRegionStays(region, answers, calls - 1);
    }
  }

  // The first success, if any, comes from the first answer that names a region.
  function FirstSuccess(answers: seq<NodeList>): nat
  {
    if answers == [] then 0
    else if RegionFromList(answers[0]).Success? then 0
    else 1 + FirstSuccess(answers[1..])
  }

  // The i-th call fails before the first naming answer, and returns its region
  // from then on.
  predicate AnswersAt(answers: seq<NodeList>, i: nat, r: Result<string, MetadataError>) {
    var first := FirstSuccess(answers);
    if i < first || first >= |answers| then r.Failure?
    else RegionFromList(answers[first]).Success? && r == RegionFromList(answers[first]) && r.value != ""
  }

  // Starting without a region: every call before the first naming answer fails,
  // every later call returns the non-empty region of that answer, and no list is
  // requested after it.
  lemma {:induction false} RegionOverRuns(answers: seq<NodeList>, calls: nat)
    ensures forall i | 0 <= i < calls :: AnswersAt(answers, i, Ask("", answers, calls)[i])
    ensures FirstSuccess(answers) < |answers| && calls > FirstSuccess(answers) ==>
              Unasked("", answers, calls) == answers[FirstSuccess(answers) + 1..]
    decreases calls
  {
    if calls > 0 {
      var r := RegionFromList(if answers == [] then ListError else answers[0]);
      if r.Success? {
        CachedRegionStays(r.value, answers[1..], calls - 1);
      } else {
        var left := if answers == [] then [] else answers[1..];
        RegionOverRuns(left, calls - 1);
        var rest := Ask("", left, calls - 1);
        assert Ask("", answers, calls) == [r] + rest;
        forall i | 0 <= i < calls ensures AnswersAt(answers, i, Ask("", answers, calls)[i]) {
          if i > 0 {
            assert AnswersAt(left, i - 1, rest[i - 1]);
          }
        }
      }
    }
  }
}
