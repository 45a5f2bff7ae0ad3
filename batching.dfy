/**
 * Splitting the candidates into geocoder calls the way `np.array_split`
 * does, the inner join of each response back to its chunk's dates, and the
 * loop that submits the chunks one after the other.
 */
module Batching {
  import opened Wrappers
  import opened Records
  import opened Seqs

  /** The largest number of records the geocoder accepts in one call. */
  const BatchLimit: nat := 5000

  /**
   * `len(new_providers) // 5000 + 1`: one call more than the number of full
   * batches, so at least one call even with no candidates.
   */
  function Calls(n: nat): (k: nat)
    ensures k >= 1
    ensures (k - 1) * BatchLimit <= n < k * BatchLimit
  {
    n / BatchLimit + 1
  }

  /** Where chunk `i` starts when `n` rows are split into `k` chunks, larger chunks first. */
  function Start(n: nat, k: nat, i: nat): nat
    requires k >= 1
  {
    i * (n / k) + (if i < n % k then i else n % k)
  }

  /** Chunk `i` is `n / k` rows long, plus one for the first `n % k` chunks. */
  function ChunkSize(n: nat, k: nat, i: nat): nat
    requires k >= 1
  {
    n / k + (if i < n % k then 1 else 0)
  }

  lemma StartStep(n: nat, k: nat, i: nat)
    requires k >= 1
    ensures Start(n, k, i + 1) == Start(n, k, i) + ChunkSize(n, k, i)
  {
    assert (i + 1) * (n / k) == i * (n / k) + n / k;
  }

  lemma {:induction false} StartBound(n: nat, k: nat, i: nat)
    requires k >= 1 && i <= k
    ensures Start(n, k, i) <= Start(n, k, k) == n
    decreases k - i
  {
    assert Start(n, k, k) == n;
    if i < k {
      StartStep(n, k, i);
      StartBound(n, k, i + 1);
    }
  }

  /**
   * `np.array_split(s, k)`: `k` contiguous slices of `s`, the first
   * `|s| % k` of them one row longer than the rest.
   */
  function ArraySplit<T>(s: seq<T>, k: nat): (chunks: seq<seq<T>>)
    requires k >= 1
    ensures |chunks| == k
  {
    seq(k, i requires 0 <= i < k =>
      StartStep(|s|, k, i); StartBound(|s|, k, i + 1);
      s[Start(|s|, k, i)..Start(|s|, k, i + 1)])
  }

  /** `pd.concat` of a list of frames: their rows one list after the other, in order. */
  function Flatten<T>(xs: seq<seq<T>>): (r: seq<T>)
    ensures |xs| == 1 ==> r == xs[0]
  {
    if xs == [] then [] else Flatten(xs[..|xs| - 1]) + xs[|xs| - 1]
  }

  lemma {:induction false} FlattenMember<T>(xs: seq<seq<T>>, x: T)
    ensures x in Flatten(xs) <==> exists i :: 0 <= i < |xs| && x in xs[i]
  {
    if xs != [] {
      var init := xs[..|xs| - 1];
      FlattenMember(init, x);
      if x in Flatten(xs) && x !in xs[|xs| - 1] {
        var i :| 0 <= i < |init| && x in init[i];
        assert xs[i] == init[i];
      }
      if exists i :: 0 <= i < |xs| && x in xs[i] {
        var i :| 0 <= i < |xs| && x in xs[i];
        if i < |init| {
          assert init[i] == xs[i];
        }
      }
    }
  }

  lemma {:induction false} SplitPrefix<T>(s: seq<T>, k: nat, j: nat)
    requires 1 <= k && j <= k
    ensures Start(|s|, k, j) <= |s|
    ensures Flatten(ArraySplit(s, k)[..j]) == s[..Start(|s|, k, j)]
  {
    StartBound(|s|, k, j);
    if j > 0 {
      var chunks := ArraySplit(s, k);
      SplitPrefix(s, k, j - 1);
      StartStep(|s|, k, j - 1);
      assert chunks[..j][..j - 1] == chunks[..j - 1];
      assert s[..Start(|s|, k, j)] == s[..Start(|s|, k, j - 1)] + chunks[j - 1];
    }
  }

  /** Concatenating the chunks in order gives back exactly the candidates. */
  lemma SplitConcat<T>(s: seq<T>, k: nat)
    requires k >= 1
    ensures Flatten(ArraySplit(s, k)) == s
  {
    var chunks := ArraySplit(s, k);
    StartBound(|s|, k, k);
    SplitPrefix(s, k, k);
    assert chunks[..k] == chunks;
  }

  /**
   * Chunk sizes: each is `|s| / k` or one more, the longer ones come first,
   * so any two chunks differ by at most one row and sizes never increase.
   */
  lemma SplitSizes<T>(s: seq<T>, k: nat)
    requires k >= 1
    ensures forall i :: 0 <= i < k ==> |ArraySplit(s, k)[i]| == ChunkSize(|s|, k, i)
    ensures forall i, j :: 0 <= i <= j < k ==>
      |ArraySplit(s, k)[j]| <= |ArraySplit(s, k)[i]| <= |ArraySplit(s, k)[j]| + 1
  {
    var chunks := ArraySplit(s, k);
    forall i | 0 <= i < k
      ensures |chunks[i]| == ChunkSize(|s|, k, i)
    {
      StartStep(|s|, k, i);
      StartBound(|s|, k, i + 1);
    }
    ChunkSizesBalanced(|s|, k);
  }

  lemma ChunkSizesBalanced(n: nat, k: nat)
    requires k >= 1
    ensures forall i, j :: 0 <= i <= j < k ==> ChunkSize(n, k, j) <= ChunkSize(n, k, i) <= ChunkSize(n, k, j) + 1
  {
  }

  /** With the run's call count, no chunk exceeds the geocoder's limit. */
  lemma SplitWithinLimit<T>(s: seq<T>)
    ensures forall i :: 0 <= i < Calls(|s|) ==> |ArraySplit(s, Calls(|s|))[i]| <= BatchLimit
  {
    var n, k := |s|, Calls(|s|);
    SplitSizes(s, k);
    QuotientBound(n, k);
  }

  lemma QuotientBound(n: nat, k: nat)
    requires k >= 1 && n < k * BatchLimit
    ensures n / k < BatchLimit
  {
    assert k * (n / k) <= n;
  }

  /** `r.drop("date", axis=1)` on one row: what is sent to the geocoder. */
  function ToRequest(c: Candidate): Request
  {
    Request(c.id, c.street, c.city, c.state, c.zip)
  }

  /** A chunk turned into the geocoder's request records, row for row. */
  function Strip(chunk: seq<Candidate>): (reqs: seq<Request>)
    ensures |reqs| == |chunk|
    ensures forall i :: 0 <= i < |chunk| ==> reqs[i].id == chunk[i].id
  {
    seq(|chunk|, i requires 0 <= i < |chunk| => ToRequest(chunk[i]))
  }

  lemma StripConcat(a: seq<Candidate>, b: seq<Candidate>)
    ensures Strip(a + b) == Strip(a) + Strip(b)
  {
  }

  /** The request records of each geocoder call of a run over `cands`. */
  function Batches(cands: seq<Candidate>): (batches: seq<seq<Request>>)
  {
    var chunks := ArraySplit(cands, Calls(|cands|));
    seq(|chunks|, i requires 0 <= i < |chunks| => Strip(chunks[i]))
  }

  lemma {:induction false} FlattenStrip(chunks: seq<seq<Candidate>>)
    ensures Flatten(seq(|chunks|, i requires 0 <= i < |chunks| => Strip(chunks[i]))) == Strip(Flatten(chunks))
  {
    if chunks != [] {
      var init := chunks[..|chunks| - 1];
      var mapped := seq(|chunks|, i requires 0 <= i < |chunks| => Strip(chunks[i]));
      FlattenStrip(init);
      assert mapped[..|chunks| - 1] == seq(|init|, i requires 0 <= i < |init| => Strip(init[i]));
      StripConcat(Flatten(init), chunks[|chunks| - 1]);
    }
  }

  /**
   * The calls of a run: `n div 5000 + 1` of them, sending every candidate
   * exactly once and in order, each call within the limit, their sizes
   * differing by at most one with the larger calls first.
   */
  lemma BatchesPartition(cands: seq<Candidate>)
    ensures |Batches(cands)| == Calls(|cands|)
    ensures Flatten(Batches(cands)) == Strip(cands)
    ensures forall i :: 0 <= i < |Batches(cands)| ==> |Batches(cands)[i]| <= BatchLimit
    ensures forall i, j :: 0 <= i <= j < |Batches(cands)| ==>
      |Batches(cands)[j]| <= |Batches(cands)[i]| <= |Batches(cands)[j]| + 1
  {
    var chunks := ArraySplit(cands, Calls(|cands|));
    FlattenStrip(chunks);
    SplitConcat(cands, Calls(|cands|));
    SplitSizes(cands, Calls(|cands|));
    SplitWithinLimit(cands);
  }

  /** The merged rows for one response row: one per chunk row with its id, in chunk order. */
  function Attach(r: Response, chunk: seq<Candidate>): (ms: seq<Merged>)
    ensures |ms| <= |chunk|
  {
    if chunk == [] then []
    else (if chunk[0].id == r.id then [Merged(r, chunk[0].date)] else []) + Attach(r, chunk[1..])
  }

  /**
   * `resp.merge(r[["id", "date"]], on="id")` on a non-empty answer: an inner
   * join that keeps the order of the response rows.
   */
  function Join(resp: seq<Response>, chunk: seq<Candidate>): (ms: seq<Merged>)
    ensures |ms| <= |resp| * |chunk|
  {
    if resp == [] then [] else Attach(resp[0], chunk) + Join(resp[1..], chunk)
  }

  lemma {:induction false} AttachMember(r: Response, chunk: seq<Candidate>, m: Merged)
    ensures m in Attach(r, chunk) <==> m.resp == r && exists c :: c in chunk && c.id == r.id && c.date == m.date
  {
    if chunk != [] {
      AttachMember(r, chunk[1..], m);
      if m.resp == r && (exists c :: c in chunk && c.id == r.id && c.date == m.date) {
        var c :| c in chunk && c.id == r.id && c.date == m.date;
        if c != chunk[0] {
          assert c in chunk[1..];
        }
      }
    }
  }

  /**
   * The join relates a response row and a date exactly when some chunk row
   * has that row's id and that date: every merged row comes from a response
   * row whose id was submitted in the chunk, responses with other ids are
   * dropped, and no match is lost.
   */
  lemma {:induction false} JoinMember(resp: seq<Response>, chunk: seq<Candidate>, m: Merged)
    ensures m in Join(resp, chunk) <==>
      m.resp in resp && exists c :: c in chunk && c.id == m.resp.id && c.date == m.date
  {
    if resp != [] {
      AttachMember(resp[0], chunk, m);
      JoinMember(resp[1..], chunk, m);
      assert resp == [resp[0]] + resp[1..];
    }
  }

  /** The number of chunk rows with a given id. */
  function CountId(id: string, chunk: seq<Candidate>): nat
  {
    if chunk == [] then 0 else (if chunk[0].id == id then 1 else 0) + CountId(id, chunk[1..])
  }

  lemma {:induction false} AttachLength(r: Response, chunk: seq<Candidate>)
    ensures |Attach(r, chunk)| == CountId(r.id, chunk)
    ensures forall m :: m in Attach(r, chunk) ==> m.resp == r
  {
    if chunk != [] {
      AttachLength(r, chunk[1..]);
    }
  }

  lemma {:induction false} CountIdUnique(id: string, chunk: seq<Candidate>, k: nat)
    requires forall i, j :: 0 <= i < j < |chunk| ==> chunk[i].id != chunk[j].id
    requires k < |chunk| && chunk[k].id == id
    ensures CountId(id, chunk) == 1
  {
    if k > 0 {
      CountIdUnique(id, chunk[1..], k - 1);
    } else {
      CountIdAbsent(id, chunk[1..]);
    }
  }

  lemma {:induction false} CountIdAbsent(id: string, chunk: seq<Candidate>)
    requires forall i :: 0 <= i < |chunk| ==> chunk[i].id != id
    ensures CountId(id, chunk) == 0
  {
    if chunk != [] {
      CountIdAbsent(id, chunk[1..]);
    }
  }

  /** A response row whose id occurs once in the chunk yields exactly one merged row. */
  lemma AttachUnique(r: Response, chunk: seq<Candidate>, k: nat)
    requires forall i, j :: 0 <= i < j < |chunk| ==> chunk[i].id != chunk[j].id
    requires k < |chunk| && chunk[k].id == r.id
    ensures |Attach(r, chunk)| == 1 && Attach(r, chunk)[0].resp == r
  {
    CountIdUnique(r.id, chunk, k);
    AttachLength(r, chunk);
    assert Attach(r, chunk)[0] in Attach(r, chunk);
  }

  /**
   * When the chunk's ids are distinct and the geocoder only answers for
   * submitted ids, the join loses nothing: one merged row per response row,
   * in the response's order.
   */
  lemma {:induction false} JoinOnUniqueIds(resp: seq<Response>, chunk: seq<Candidate>)
    requires forall i, j :: 0 <= i < j < |chunk| ==> chunk[i].id != chunk[j].id
    requires forall r :: r in resp ==> exists k :: 0 <= k < |chunk| && chunk[k].id == r.id
    ensures |Join(resp, chunk)| == |resp|
    ensures forall i :: 0 <= i < |resp| ==> Join(resp, chunk)[i].resp == resp[i]
  {
    if resp != [] {
      assert resp[0] in resp;
      var k :| 0 <= k < |chunk| && chunk[k].id == resp[0].id;
      AttachUnique(resp[0], chunk, k);
      assert forall r :: r in resp[1..] ==> r in resp;
      JoinOnUniqueIds(resp[1..], chunk);
      JoinStep(resp, chunk);
    }
  }

  /** One step of the induction above: a single merged row for the head, then the rest in order. */
  lemma JoinStep(resp: seq<Response>, chunk: seq<Candidate>)
    requires resp != []
    requires |Attach(resp[0], chunk)| == 1 && Attach(resp[0], chunk)[0].resp == resp[0]
    requires |Join(resp[1..], chunk)| == |resp| - 1
    requires forall i :: 0 <= i < |resp| - 1 ==> Join(resp[1..], chunk)[i].resp == resp[i + 1]
    ensures |Join(resp, chunk)| == |resp|
    ensures forall i :: 0 <= i < |resp| ==> Join(resp, chunk)[i].resp == resp[i]
  {
    var head, rest := Attach(resp[0], chunk), Join(resp[1..], chunk);
    assert Join(resp, chunk) == head + rest;
    forall i | 0 <= i < |resp|
      ensures Join(resp, chunk)[i].resp == resp[i]
    {
      if i > 0 {
        assert Join(resp, chunk)[i] == rest[i - 1];
      }
    }
  }

  /**
   * The first call whose answer is empty. `pd.DataFrame([])` has no `id`
   * column, so the merge after that call raises `KeyError` and ends the run.
   */
  function FirstEmptyAnswer(cands: seq<Candidate>, geocode: seq<Request> -> seq<Response>): (k: Option<nat>)
    ensures k.Some? ==>
      k.value < Calls(|cands|) && geocode(Batches(cands)[k.value]) == [] &&
      forall j :: 0 <= j < k.value ==> geocode(Batches(cands)[j]) != []
    ensures k.None? <==> forall j :: 0 <= j < Calls(|cands|) ==> geocode(Batches(cands)[j]) != []
  {
    FindFirst(Batches(cands), (b: seq<Request>) => geocode(b) == [])
  }

  /** The request records of the calls a run over `cands` actually makes. */
  function Sent(cands: seq<Candidate>, geocode: seq<Request> -> seq<Response>): (sent: seq<seq<Request>>)
    ensures 1 <= |sent| <= Calls(|cands|) && sent == Batches(cands)[..|sent|]
  {
    match FirstEmptyAnswer(cands, geocode)
    case Some(k) => Batches(cands)[..k + 1]
    case None => Batches(cands)
  }

  /**
   * What the batch loop of a run over `cands` produces: nothing, because the
   * merge raised, when some call's answer is empty; otherwise the
   * concatenated joins, call by call.
   */
  function GeocodeAll(cands: seq<Candidate>, geocode: seq<Request> -> seq<Response>): (ms: Option<seq<Merged>>)
    ensures ms.None? <==> exists j :: 0 <= j < Calls(|cands|) && geocode(Batches(cands)[j]) == []
  {
    if FirstEmptyAnswer(cands, geocode).Some? then None else Some(Flatten(Joins(cands, geocode)))
  }

  /** Each call's answer joined back to its chunk, call by call. */
  function Joins(cands: seq<Candidate>, geocode: seq<Request> -> seq<Response>): (js: seq<seq<Merged>>)
    ensures |js| == Calls(|cands|)
  {
    var chunks := ArraySplit(cands, Calls(|cands|));
    seq(|chunks|, i requires 0 <= i < |chunks| => Join(geocode(Strip(chunks[i])), chunks[i]))
  }

  /**
   * The calls sent are all of them when the loop completes, and otherwise
   * end with the first call whose answer is empty.
   */
  lemma SentEnds(cands: seq<Candidate>, geocode: seq<Request> -> seq<Response>)
    ensures var n := |Sent(cands, geocode)|;
      (GeocodeAll(cands, geocode).Some? ==> n == Calls(|cands|)) &&
      (GeocodeAll(cands, geocode).None? ==> geocode(Batches(cands)[n - 1]) == [])
  {
  }

  /**
   * When the loop completes, every row it produces is a response to one of
   * the calls, joined to the date of a row of that same call's chunk with
   * the same id.
   */
  lemma GeocodeAllSound(cands: seq<Candidate>, geocode: seq<Request> -> seq<Response>, m: Merged)
    requires GeocodeAll(cands, geocode).Some? && m in GeocodeAll(cands, geocode).value
    ensures exists i ::
              0 <= i < Calls(|cands|) && m.resp in geocode(Batches(cands)[i]) &&
              (exists c :: c in ArraySplit(cands, Calls(|cands|))[i] && c.id == m.resp.id && c.date == m.date)
  {
    var chunks := ArraySplit(cands, Calls(|cands|));
    var joins := Joins(cands, geocode);
    FlattenMember(joins, m);
    var i :| 0 <= i < |joins| && m in joins[i];
    JoinMember(geocode(Strip(chunks[i])), chunks[i], m);
  }

  /**
   * When the loop completes, no match is lost: a response row of call `i`
   * and a row of that call's chunk with the same id give a geocoded row
   * carrying the chunk row's date.
   */
  lemma GeocodeAllComplete(cands: seq<Candidate>, geocode: seq<Request> -> seq<Response>, i: nat, r: Response, c: Candidate)
    requires GeocodeAll(cands, geocode).Some?
    requires i < Calls(|cands|) && r in geocode(Batches(cands)[i])
    requires c in ArraySplit(cands, Calls(|cands|))[i] && c.id == r.id
    ensures Merged(r, c.date) in GeocodeAll(cands, geocode).value
  {
    var chunks := ArraySplit(cands, Calls(|cands|));
    var joins := Joins(cands, geocode);
    assert Batches(cands)[i] == Strip(chunks[i]);
    assert joins[i] == Join(geocode(Strip(chunks[i])), chunks[i]);
    JoinMember(geocode(Strip(chunks[i])), chunks[i], Merged(r, c.date));
    FlattenMember(joins, Merged(r, c.date));
  }

  /**
   * With no candidates the run still makes its one call, with an empty
   * batch; the service answers it with no rows, so the merge raises.
   */
  lemma NoCandidatesFail(geocode: seq<Request> -> seq<Response>)
    requires geocode([]) == []
    ensures Sent([], geocode) == [[]] && GeocodeAll([], geocode).None?
  {
    var none: seq<Candidate> := [];
    var chunks := ArraySplit(none, 1);
    assert chunks[0] == none[Start(0, 1, 0)..Start(0, 1, 1)] == [];
    assert Batches([])[0] == [];
  }

  /** The first empty answer ends the run after its call, with no rows. */
  lemma StopsAt(cands: seq<Candidate>, geocode: seq<Request> -> seq<Response>, i: nat)
    requires i < Calls(|cands|) && geocode(Batches(cands)[i]) == []
    requires forall j :: 0 <= j < i ==> geocode(Batches(cands)[j]) != []
    ensures FirstEmptyAnswer(cands, geocode) == Some(i)
    ensures Sent(cands, geocode) == Batches(cands)[..i + 1] && GeocodeAll(cands, geocode).None?
    ensures forall j :: 0 <= j <= i ==> |Batches(cands)[j]| <= BatchLimit
  {
    BatchesPartition(cands);
  }

  /**
   * One turn of the batch loop extends the calls made and the joins
   * gathered so far by those of chunk `i`.
   */
  lemma LoopStep(cands: seq<Candidate>, geocode: seq<Request> -> seq<Response>, i: nat)
    requires i < Calls(|cands|)
    ensures var chunk := ArraySplit(cands, Calls(|cands|))[i];
      Batches(cands)[..i] + [Strip(chunk)] == Batches(cands)[..i + 1] &&
      Joins(cands, geocode)[..i] + [Join(geocode(Strip(chunk)), chunk)] == Joins(cands, geocode)[..i + 1]
  {
  }

  /** A loop that meets no empty answer sends every batch and gathers every join. */
  lemma LoopDone(cands: seq<Candidate>, geocode: seq<Request> -> seq<Response>)
    requires forall j :: 0 <= j < Calls(|cands|) ==> geocode(Batches(cands)[j]) != []
    ensures Batches(cands)[..Calls(|cands|)] == Batches(cands) == Sent(cands, geocode)
    ensures Joins(cands, geocode)[..Calls(|cands|)] == Joins(cands, geocode)
    ensures GeocodeAll(cands, geocode) == Some(Flatten(Joins(cands, geocode)))
    ensures forall j :: 0 <= j < Calls(|cands|) ==> |Batches(cands)[j]| <= BatchLimit
    ensures Flatten(Batches(cands)) == Strip(cands)
  {
    BatchesPartition(cands);
  }

  /**
   * The batch loop: one geocoder call per chunk, in order, each response
   * joined back to its chunk's dates and appended to `responses`, which is
   * concatenated at the end; an empty answer makes the merge raise and ends
   * the loop after that call. Returns the call count, the records sent in
   * each call made and, when the loop completes, the concatenated rows.
   */
  method SubmitBatches(cands: seq<Candidate>, geocode: seq<Request> -> seq<Response>)
    returns (calls: nat, sent: seq<seq<Request>>, geocoded: Option<seq<Merged>>)
    ensures calls == Calls(|cands|) && calls >= 1
    ensures sent == Sent(cands, geocode) && 1 <= |sent| <= calls
    ensures forall i :: 0 <= i < |sent| ==> |sent[i]| <= BatchLimit
    ensures geocoded == GeocodeAll(cands, geocode)
    ensures geocoded.None? <==> geocode(sent[|sent| - 1]) == []
    ensures geocoded.Some? ==> sent == Batches(cands) && |sent| == calls && Flatten(sent) == Strip(cands)
  {
    calls := |cands| / BatchLimit + 1;
    var chunks := ArraySplit(cands, calls);
    var responses: seq<seq<Merged>> := [];
    sent := [];
    var i := 0;
    while i < |chunks|
      invariant 0 <= i <= |chunks|
      invariant sent == Batches(cands)[..i]
      invariant responses == Joins(cands, geocode)[..i]
      invariant forall j :: 0 <= j < i ==> geocode(Batches(cands)[j]) != []
    {
      LoopStep(cands, geocode, i);
      var request := Strip(chunks[i]);
      var response := geocode(request);
      sent := sent + [request];
      if response == [] {
        StopsAt(cands, geocode, i);
        geocoded := None;
        return;
      }
      responses := responses + [Join(response, chunks[i])];
      i := i + 1;
    }
    LoopDone(cands, geocode);
    geocoded := Some(Flatten(responses));
  }
}
