/** Extract step of the ETL handler: from the listing of the bucket prefix,
    keep the text and CSV objects and pick the most recently modified one the
    way Python's `max(..., key=...)` does. */
module EtlExtract {
  import opened Results
  import opened Seqs
  import opened PyStr

  /** One entry of the `Contents` list of a `list_objects_v2` response;
      `lastModified` is the timestamp as a comparable number. */
  datatype S3Object = S3Object(key: string, lastModified: int)

  datatype ExtractError = NoSourceObject

  /** The listed objects; a response without `Contents` lists none. */
  function Listed(contents: Option<seq<S3Object>>): seq<S3Object>
  {
    match contents
    case None => []
    case Some(objs) => objs
  }

  predicate IsCandidate(o: S3Object)
  {
    EndsWith(o.key, ".txt") || EndsWith(o.key, ".csv")
  }

  /** The list comprehension: the text and CSV objects, in listing order. */
  function Candidates(objs: seq<S3Object>): (cs: seq<S3Object>)
    ensures |cs| <= |objs|
    ensures forall o :: o in cs <==> o in objs && IsCandidate(o)
  {
    Filter(IsCandidate, objs)
  }

  /** Python's `max` scanning `s` from position `i` with `best` the maximum of
      `s[..i]` so far: a later element replaces it only when strictly greater. */
  function MaxFrom(s: seq<S3Object>, best: nat, i: nat): (k: nat)
    requires best < i <= |s|
    requires forall j :: 0 <= j < i ==> s[j].lastModified <= s[best].lastModified
    requires forall j :: 0 <= j < best ==> s[j].lastModified < s[best].lastModified
    ensures k < |s|
    ensures forall j :: 0 <= j < |s| ==> s[j].lastModified <= s[k].lastModified
    ensures forall j :: 0 <= j < k ==> s[j].lastModified < s[k].lastModified
    decreases |s| - i
  {
    if i == |s| then best
    else if s[i].lastModified > s[best].lastModified then MaxFrom(s, i, i + 1)
    else MaxFrom(s, best, i + 1)
  }

  /** The object chosen as the source: an error when the listing holds no
      candidate, otherwise the first candidate whose timestamp is maximal. */
  function SelectLatest(contents: Option<seq<S3Object>>): (r: Result<S3Object, ExtractError>)
    ensures r.Failure? <==> forall o :: o in Listed(contents) ==> !IsCandidate(o)
    ensures r.Success? ==> r.value in Listed(contents) && IsCandidate(r.value)
  {
    var cands := Candidates(Listed(contents));
    if cands == [] then
      Failure(NoSourceObject)
    else
      assert cands[0] in cands;
      Success(cands[MaxFrom(cands, 0, 1)])
  }

  /** The selected object sits at some position of the listing, no candidate
      has a later timestamp, and every candidate listed before it has an
      earlier one: it is the first of the maximal candidates. */
  lemma SelectLatestIsFirstMaximal(contents: Option<seq<S3Object>>)
    requires SelectLatest(contents).Success?
    ensures var objs, chosen := Listed(contents), SelectLatest(contents).value;
      exists i :: 0 <= i < |objs| && objs[i] == chosen &&
        (forall j :: 0 <= j < |objs| && IsCandidate(objs[j]) ==> objs[j].lastModified <= chosen.lastModified) &&
        (forall j :: 0 <= j < i && IsCandidate(objs[j]) ==> objs[j].lastModified < chosen.lastModified)
  {
    var objs := Listed(contents);
    var cands := Candidates(objs);
    var k := MaxFrom(cands, 0, 1);
    var i := KeptIndices(IsCandidate, objs)[k];
    CandidatePositions(objs, k);
    assert objs[i] == cands[k] == SelectLatest(contents).value;
  }

  /** Transfers what `MaxFrom` says about position `k` of the candidates to
      the corresponding position of the listing. */
  lemma CandidatePositions(objs: seq<S3Object>, k: nat)
    requires k < |Candidates(objs)|
    requires forall j :: 0 <= j < |Candidates(objs)| ==> Candidates(objs)[j].lastModified <= Candidates(objs)[k].lastModified
    requires forall j :: 0 <= j < k ==> Candidates(objs)[j].lastModified < Candidates(objs)[k].lastModified
    ensures var ix, best := KeptIndices(IsCandidate, objs), Candidates(objs)[k];
      ix[k] < |objs| && objs[ix[k]] == best &&
      (forall j :: 0 <= j < |objs| && IsCandidate(objs[j]) ==> objs[j].lastModified <= best.lastModified) &&
      (forall j :: 0 <= j < ix[k] && IsCandidate(objs[j]) ==> objs[j].lastModified < best.lastModified)
  {
    var cands := Candidates(objs);
    var ix := KeptIndices(IsCandidate, objs);
    KeptIndicesSelect(IsCandidate, objs);
    KeptIndicesIncreasing(IsCandidate, objs);
    forall j | 0 <= j < |objs| && IsCandidate(objs[j])
      ensures objs[j].lastModified <= cands[k].lastModified
      ensures j < ix[k] ==> objs[j].lastModified < cands[k].lastModified
    {
      var m := CandidateAt(objs, j);
      if j < ix[k] {
        IncreasingOrder(ix, k, m);
      }
    }
  }

  /** The position among the candidates of a candidate listed at `j`. */
  lemma CandidateAt(objs: seq<S3Object>, j: nat) returns (m: nat)
    requires j < |objs| && IsCandidate(objs[j])
    ensures m < |KeptIndices(IsCandidate, objs)| && KeptIndices(IsCandidate, objs)[m] == j
    ensures Candidates(objs)[m] == objs[j]
  {
    KeptIndicesMembership(IsCandidate, objs);
    KeptIndicesSelect(IsCandidate, objs);
    m :| 0 <= m < |KeptIndices(IsCandidate, objs)| && KeptIndices(IsCandidate, objs)[m] == j;
  }

  lemma IncreasingOrder(ix: seq<nat>, a: nat, b: nat)
    requires StrictlyIncreasing(ix) && a < |ix| && b < |ix|
    requires ix[b] < ix[a]
    ensures b < a
  {
  }

  /** With no listed candidate the handler stops here, whatever else holds. */
  lemma {:induction false} NoCandidateMeansFailure(objs: seq<S3Object>)
    requires forall k :: 0 <= k < |objs| ==> !IsCandidate(objs[k])
    ensures SelectLatest(Some(objs)) == Failure(NoSourceObject)
    ensures SelectLatest(None) == Failure(NoSourceObject)
  {
  }

  /** Two candidates listed with increasing timestamps: the later one is chosen. */
  lemma LaterOfTwo(a: S3Object, b: S3Object)
    requires IsCandidate(a) && IsCandidate(b)
    requires a.lastModified < b.lastModified
    ensures SelectLatest(Some([a, b])) == Success(b)
  {
    FilterAll(IsCandidate, [a, b]);
  }
}
