/** The bottom-up analysis of the Monte-Carlo truth graph: the record
    cached for each Upsilon(4S), B and tau vertex, the depth-first order
    that computes them, and the order in which the manager's getters find
    them. */
module McGraphVisitors {
  import opened Wrappers
  import opened Sorting
  import opened Defs
  import opened Catalogue
  import opened GraphDef
  import opened Graphs
  import opened RecoGraphVisitors
  import opened McGraph

  // ---------------------------------------------------------------------
  // Analysis: the records cached per vertex
  // ---------------------------------------------------------------------

  /** The three caches of the manager, keyed by vertex. */
  datatype McCaches = McCaches(y: map<int, McYRec>, b: map<int, McBRec>, tau: map<int, TauRec>)

  const NoMcCaches := McCaches(map[], map[], map[])

  /** `AnalyzeTau`'s loop from the current label: the first e or mu
      daughter decides the label and stops the scan; every other daughter
      sets `tau_h` and the scan goes on. */
  function TauScan(g: Graph, kids: seq<int>, t: TauMcType): TauMcType {
    if kids == [] then t
    else if Abs(CodeFn(g)(kids[0])) == eLund then TauMcType.tau_e
    else if Abs(CodeFn(g)(kids[0])) == muLund then TauMcType.tau_mu
    else TauScan(g, kids[1..], TauMcType.tau_h)
  }

  predicate IsLightLeptonCode(lund: int) { Abs(lund) == eLund || Abs(lund) == muLund }

  /** The tau label is read off the first e or mu daughter; without one it
      is `tau_h`, or the starting label when there are no daughters. */
  lemma {:induction false} TauScanFirstLepton(g: Graph, kids: seq<int>, t: TauMcType)
    ensures TauScan(g, kids, t) ==
              match FirstWhere(CodeIs(g, IsLightLeptonCode), kids)
              case Some(v) => if Abs(g.code[v]) == eLund then TauMcType.tau_e else TauMcType.tau_mu
              case None => if kids == [] then t else TauMcType.tau_h
  {
    if kids != [] && !CodeIs(g, IsLightLeptonCode)(kids[0]) {
      TauScanFirstLepton(g, kids[1..], TauMcType.tau_h);
    }
  }

  /** The record `AnalyzeTau` caches for vertex `u`. */
  function TauRecOf(g: Graph, u: int): TauRec
    requires u in g.dau
  {
    TauRec(TauScan(g, g.dau[u], TauMcType.Null))
  }

  /** A tau is labelled `tau_k` never, and `Null` exactly when it has no
      daughters. */
  lemma TauRecOfLabels(g: Graph, u: int)
    requires u in g.dau
    ensures TauRecOf(g, u).mcType != TauMcType.tau_k
    ensures TauRecOf(g, u).mcType == TauMcType.Null <==> g.dau[u] == []
  {
    TauScanFirstLepton(g, g.dau[u], TauMcType.Null);
  }

  /** The record `AnalyzeB` caches for vertex `u`: the flavour from its own
      code, the last tau daughter, and the catalogue's label for the signed
      codes of all its daughters in edge order. */
  function McBRecOf(g: Graph, u: int): McBRec
    requires u in g.code && u in g.dau
  {
    McBRec(
      if Abs(g.code[u]) == B0Lund then BFlavor.B0 else BFlavor.Bc,
      SearchMc(MapSeq(CodeFn(g), g.dau[u])),
      LastWhere(CodeIs(g, IsTauCode), g.dau[u]))
  }

  /** The B record's flavour and label do not depend on the order in which
      the daughters' edges were added (which of several taus it refers to
      does). */
  lemma McBRecIgnoresDaughterOrder(g: Graph, h: Graph, u: int)
    requires u in g.code && u in g.dau && u in h.code && u in h.dau
    requires g.code == h.code && multiset(g.dau[u]) == multiset(h.dau[u])
    ensures McBRecOf(g, u).flavor == McBRecOf(h, u).flavor
    ensures McBRecOf(g, u).mcType == McBRecOf(h, u).mcType
  {
    MapSeqPermutation(CodeFn(g), g.dau[u], h.dau[u]);
    assert CodeFn(g) == CodeFn(h);
    SearchMcPermutation(MapSeq(CodeFn(g), g.dau[u]), MapSeq(CodeFn(h), h.dau[u]));
  }

  /** `AnalyzeY`'s loop from the current record: a B daughter fills `B1`
      when it is empty and `B2` otherwise; any other daughter ends the scan
      without a record. */
  function McYScan(g: Graph, kids: seq<int>, rec: McYRec): Option<McYRec> {
    if kids == [] then Some(rec)
    else if !CodeIs(g, IsBCode)(kids[0]) then None
    else McYScan(g, kids[1..], if rec.b1.None? then rec.(b1 := Some(kids[0])) else rec.(b2 := Some(kids[0])))
  }

  /** The Y scan succeeds exactly when every daughter is a B; then `B1` is
      the first daughter and `B2` the last one when there are at least two
      (a third B overwrites the second). */
  lemma {:induction false} McYScanValue(g: Graph, kids: seq<int>, rec: McYRec)
    requires rec.b1.None? ==> rec.b2.None?
    ensures McYScan(g, kids, rec).Some? <==> forall k :: 0 <= k < |kids| ==> CodeIs(g, IsBCode)(kids[k])
    ensures McYScan(g, kids, rec).Some? ==>
              && McYScan(g, kids, rec).value.isBBbar == rec.isBBbar
              && McYScan(g, kids, rec).value.b1 == (if rec.b1.Some? || kids == [] then rec.b1 else Some(kids[0]))
              && McYScan(g, kids, rec).value.b2 ==
                   (if kids == [] || (rec.b1.None? && |kids| == 1) then rec.b2 else Some(kids[|kids| - 1]))
  {
    if kids != [] && CodeIs(g, IsBCode)(kids[0]) {
      var next := if rec.b1.None? then rec.(b1 := Some(kids[0])) else rec.(b2 := Some(kids[0]));
      McYScanValue(g, kids[1..], next);
      assert forall k :: 1 <= k < |kids| ==> kids[k] == kids[1..][k - 1];
    }
  }

  /** The record `AnalyzeY` caches for vertex `u`, if any. */
  function McYOf(g: Graph, u: int): Option<McYRec>
    requires u in g.dau
  {
    McYScan(g, g.dau[u], FreshMcY)
  }

  /** A cached Y record always says the Upsilon decays to a B pair: the
      `isBBbar = false` the source sets on a non-B daughter is never stored. */
  lemma McYOfIsBBbar(g: Graph, u: int)
    requires u in g.dau && McYOf(g, u).Some?
    ensures McYOf(g, u).value.isBBbar
    ensures |g.dau[u]| >= 1 ==> McYOf(g, u).value.b1 == Some(g.dau[u][0])
    ensures |g.dau[u]| >= 2 ==> McYOf(g, u).value.b2 == Some(g.dau[u][|g.dau[u]| - 1])
  {
    McYScanValue(g, g.dau[u], FreshMcY);
  }

  /** The branch of `finish_vertex`'s switch on the magnitude of a code. */
  datatype McKind = McY | McB | McTau | McOther

  function McKindOf(lund: int): McKind {
    if IsYCode(lund) then McY
    else if IsBCode(lund) then McB
    else if IsTauCode(lund) then McTau
    else McOther
  }

  /** `finish_vertex` for vertex `u`: the switch on the magnitude of its
      code runs at most one analysis, which touches only its own cache. */
  function McFinish(g: Graph, c: McCaches, u: int): (r: McCaches)
    requires u in g.code && u in g.dau
    ensures forall v :: v in r.y <==> v in c.y || (v == u && IsYCode(g.code[u]) && McYOf(g, u).Some?)
    ensures forall v :: v in r.b <==> v in c.b || (v == u && IsBCode(g.code[u]))
    ensures forall v :: v in r.tau <==> v in c.tau || (v == u && IsTauCode(g.code[u]))
  {
    McCaches(FinishY(g, c.y, u), FinishB(g, c.b, u), FinishTau(g, c.tau, u))
  }

  /** `AnalyzeY`'s effect: a record is stored only when the scan succeeds. */
  function FinishY(g: Graph, m: map<int, McYRec>, u: int): (r: map<int, McYRec>)
    requires u in g.code && u in g.dau
    ensures forall v :: v in r <==> v in m || (v == u && IsYCode(g.code[u]) && McYOf(g, u).Some?)
  {
    if McKindOf(g.code[u]) == McY && McYOf(g, u).Some? then Put(m, u, McYOf(g, u).value) else m
  }

  function FinishB(g: Graph, m: map<int, McBRec>, u: int): (r: map<int, McBRec>)
    requires u in g.code && u in g.dau
    ensures forall v :: v in r <==> v in m || (v == u && IsBCode(g.code[u]))
  {
    if McKindOf(g.code[u]) == McB then Put(m, u, McBRecOf(g, u)) else m
  }

  function FinishTau(g: Graph, m: map<int, TauRec>, u: int): (r: map<int, TauRec>)
    requires u in g.code && u in g.dau
    ensures forall v :: v in r <==> v in m || (v == u && IsTauCode(g.code[u]))
  {
    if McKindOf(g.code[u]) == McTau then Put(m, u, TauRecOf(g, u)) else m
  }

  /** Every cached record is the one its vertex's analysis computes. */
  ghost predicate RecordsOfGraph(g: Graph, c: McCaches) {
    YRecordsOfGraph(g, c.y) && BRecordsOfGraph(g, c.b) && TauRecordsOfGraph(g, c.tau)
  }

  ghost predicate YRecordsOfGraph(g: Graph, m: map<int, McYRec>) {
    forall v :: v in m ==> v in g.dau && McYOf(g, v) == Some(m[v])
  }

  ghost predicate BRecordsOfGraph(g: Graph, m: map<int, McBRec>) {
    forall v :: v in m ==> v in g.code && v in g.dau && m[v] == McBRecOf(g, v)
  }

  ghost predicate TauRecordsOfGraph(g: Graph, m: map<int, TauRec>) {
    forall v :: v in m ==> v in g.dau && m[v] == TauRecOf(g, v)
  }

  lemma McFinishYRecords(g: Graph, m: map<int, McYRec>, u: int)
    requires u in g.code && u in g.dau && YRecordsOfGraph(g, m)
    ensures YRecordsOfGraph(g, FinishY(g, m, u))
  {
  }

  lemma McFinishBRecords(g: Graph, m: map<int, McBRec>, u: int)
    requires u in g.code && u in g.dau && BRecordsOfGraph(g, m)
    ensures BRecordsOfGraph(g, FinishB(g, m, u))
  {
  }

  lemma McFinishTauRecords(g: Graph, m: map<int, TauRec>, u: int)
    requires u in g.code && u in g.dau && TauRecordsOfGraph(g, m)
    ensures TauRecordsOfGraph(g, FinishTau(g, m, u))
  {
  }

  /** `finish_vertex` over the vertices of `order`, first to last. */
  function McAnalyzeOrder(g: Graph, c: McCaches, order: seq<int>): McCaches
    requires Valid(g) && forall k :: 0 <= k < |order| ==> order[k] in g.code
    decreases |order|
  {
    if order == [] then c
    else McAnalyzeOrder(g, McFinish(g, c, order[0]), order[1..])
  }

  /** After a run over `order` a cache holds the vertices it held plus the
      vertices of `order` of its kind, each with the record its own analysis
      computes. */
  lemma {:induction false} McAnalyzeOrderContents(g: Graph, c: McCaches, order: seq<int>)
    requires Valid(g) && forall k :: 0 <= k < |order| ==> order[k] in g.code
    requires RecordsOfGraph(g, c)
    ensures RecordsOfGraph(g, McAnalyzeOrder(g, c, order))
    ensures var r := McAnalyzeOrder(g, c, order);
            && (forall v :: v in r.y <==> v in c.y || (v in order && IsYCode(g.code[v]) && McYOf(g, v).Some?))
            && (forall v :: v in r.b <==> v in c.b || (v in order && IsBCode(g.code[v])))
            && (forall v :: v in r.tau <==> v in c.tau || (v in order && IsTauCode(g.code[v])))
    decreases |order|
  {
    if order != [] {
      var u := order[0];
      assert u in g.ids;
      McFinishYRecords(g, c.y, u);
      McFinishBRecords(g, c.b, u);
      McFinishTauRecords(g, c.tau, u);
      assert forall k :: 0 <= k < |order[1..]| ==> order[1..][k] in g.code by {
        forall k | 0 <= k < |order[1..]| ensures order[1..][k] in g.code {
          assert order[1..][k] == order[k + 1];
        }
      }
      McAnalyzeOrderContents(g, McFinish(g, c, u), order[1..]);
      assert order == [u] + order[1..];
    }
  }

  /** The depth-first pass of `analyze_graph`, before its size checks. */
  function McDfs(g: Graph): McCaches
    requires Valid(g)
  {
    var order := PostOrder(g);
    assert forall k :: 0 <= k < |order| ==> order[k] in g.code by {
      forall k | 0 <= k < |order| ensures order[k] in g.code {
        assert order[k] in order;
      }
    }
    McAnalyzeOrder(g, NoMcCaches, order)
  }

  /** The Y vertices whose daughters are all B mesons. */
  predicate HasMcY(g: Graph, v: int) {
    v in g.code && v in g.dau && IsYCode(g.code[v]) && McYOf(g, v).Some?
  }

  /** The caches after the depth-first pass do not depend on the traversal
      order: every B and tau vertex has its record, and every Upsilon whose
      daughters are all B mesons. */
  lemma McDfsContents(g: Graph)
    requires Valid(g)
    ensures RecordsOfGraph(g, McDfs(g))
    ensures forall v :: v in McDfs(g).y <==> HasMcY(g, v)
    ensures forall v :: v in McDfs(g).b <==> CodeIs(g, IsBCode)(v)
    ensures forall v :: v in McDfs(g).tau <==> CodeIs(g, IsTauCode)(v)
  {
    var order := PostOrder(g);
    assert forall k :: 0 <= k < |order| ==> order[k] in g.code by {
      forall k | 0 <= k < |order| ensures order[k] in g.code {
        assert order[k] in order;
      }
    }
    McAnalyzeOrderContents(g, NoMcCaches, order);
  }

  /** In a graph without cycles, when the traversal finishes its k-th
      vertex every B and tau daughter of that vertex is already cached, so
      the reads `B_map[*ai]` of `AnalyzeY` and `Tau_map[*ai]` of `AnalyzeB`
      never insert a default entry. */
  lemma McDaughterRecordsReady(g: Graph, rank: map<int, int>, k: nat)
    requires Valid(g) && Ranked(g, rank)
    requires k < |PostOrder(g)|
    requires forall j :: 0 <= j < k ==> PostOrder(g)[j] in g.code
    ensures PostOrder(g)[k] in g.dau
    ensures var u := PostOrder(g)[k];
            var c := McAnalyzeOrder(g, NoMcCaches, PostOrder(g)[..k]);
            forall j :: 0 <= j < |g.dau[u]| ==>
              && (CodeIs(g, IsBCode)(g.dau[u][j]) ==> g.dau[u][j] in c.b)
              && (CodeIs(g, IsTauCode)(g.dau[u][j]) ==> g.dau[u][j] in c.tau)
  {
    var u := PostOrder(g)[k];
    var pre := PostOrder(g)[..k];
    DaughtersFinishedBefore(g, rank, k);
    McAnalyzeOrderContents(g, NoMcCaches, pre);
    var c := McAnalyzeOrder(g, NoMcCaches, pre);
    forall j | 0 <= j < |g.dau[u]|
      ensures CodeIs(g, IsBCode)(g.dau[u][j]) ==> g.dau[u][j] in c.b
      ensures CodeIs(g, IsTauCode)(g.dau[u][j]) ==> g.dau[u][j] in c.tau
    {
      var d := g.dau[u][j];
      assert d in pre;
      assert CodeIs(g, IsBCode)(d) ==> IsBCode(g.code[d]);
      assert CodeIs(g, IsTauCode)(d) ==> IsTauCode(g.code[d]);
    }
  }

  /** `analyze_graph`: the depth-first pass, then the checks that there is
      at most one Upsilon record and either no or exactly two B records. */
  function McAnalysis(g: Graph): (r: Result<McCaches>)
    requires Valid(g)
    ensures r.Ok? ==> |r.value.y| <= 1 && (|r.value.b| == 0 || |r.value.b| == 2)
  {
    var c := McDfs(g);
    if (|c.y| == 0 || |c.y| == 1) && (|c.b| == 0 || |c.b| == 2) then Ok(c) else Abort
  }

  // ---------------------------------------------------------------------
  // Reading the caches in vertex order
  // ---------------------------------------------------------------------

  /** The keys of `m`, in the graph's vertex order (the order of the
      vertex descriptors a `std::map` keyed by vertex iterates in). */
  function InVertexOrder<V>(ids: seq<int>, m: map<int, V>): (r: seq<int>)
    ensures forall k :: 0 <= k < |r| ==> r[k] in m
  {
    Filter((v: int) => v in m, ids)
  }

  /** `ids[j]` is the first key of `m` along `ids`. */
  ghost predicate FirstKey<V>(ids: seq<int>, m: map<int, V>, j: int) {
    0 <= j < |ids| && ids[j] in m && forall i :: 0 <= i < j ==> ids[i] !in m
  }

  /** `ids[j1]` and `ids[j2]` are the first two keys of `m` along `ids`. */
  ghost predicate SecondKey<V>(ids: seq<int>, m: map<int, V>, j1: int, j2: int) {
    FirstKey(ids, m, j1) && j1 < j2 < |ids| && ids[j2] in m && forall i :: j1 < i < j2 ==> ids[i] !in m
  }

  /** `ids[j]` is the only key of `m` along `ids`. */
  ghost predicate OnlyKey<V>(ids: seq<int>, m: map<int, V>, j: int) {
    FirstKey(ids, m, j) && forall i :: j < i < |ids| ==> ids[i] !in m
  }

  lemma InVertexOrderCons<V>(x: int, s: seq<int>, m: map<int, V>)
    ensures InVertexOrder([x] + s, m) == (if x in m then [x] else []) + InVertexOrder(s, m)
  {
    FilterAppend((v: int) => v in m, [x], s);
    assert [x][..0] == [];
  }

  /** Reading `m` in the order of `ids` starts with its first key and then
      its second, and has one element exactly when `m` has one key along
      `ids`. */
  ghost predicate HeadKeys<V>(ids: seq<int>, m: map<int, V>) {
    var ks := InVertexOrder(ids, m);
    && (ks == [] <==> forall j :: 0 <= j < |ids| ==> ids[j] !in m)
    && (ks != [] ==> exists j :: FirstKey(ids, m, j) && ks[0] == ids[j])
    && (|ks| >= 2 ==> exists j1, j2 :: SecondKey(ids, m, j1, j2) && ks[1] == ids[j2])
    && (|ks| == 1 <==> exists j :: OnlyKey(ids, m, j))
  }

  /** A key in front becomes the first key. */
  lemma HeadKeysIn<V>(x: int, s: seq<int>, m: map<int, V>)
    requires x in m && HeadKeys(s, m)
    ensures HeadKeys([x] + s, m)
  {
    var ids := [x] + s;
    InVertexOrderCons(x, s, m);
    var ks, kt := InVertexOrder(ids, m), InVertexOrder(s, m);
    assert forall i :: 1 <= i < |ids| ==> ids[i] == s[i - 1];
    assert FirstKey(ids, m, 0);
    if |ks| >= 2 {
      var j :| FirstKey(s, m, j) && kt[0] == s[j];
      assert SecondKey(ids, m, 0, j + 1);
    }
    if |ks| == 1 {
      assert OnlyKey(ids, m, 0);
    }
    if j :| OnlyKey(ids, m, j) {
      assert j == 0;
      assert forall i :: 0 <= i < |s| ==> s[i] !in m;
    }
  }

  /** A non-key in front shifts every key by one. */
  lemma HeadKeysOut<V>(x: int, s: seq<int>, m: map<int, V>)
    requires x !in m && HeadKeys(s, m)
    ensures HeadKeys([x] + s, m)
  {
    var ids := [x] + s;
    InVertexOrderCons(x, s, m);
    var ks, kt := InVertexOrder(ids, m), InVertexOrder(s, m);
    assert forall i :: 1 <= i < |ids| ==> ids[i] == s[i - 1];
    if ks != [] {
      var j :| FirstKey(s, m, j) && kt[0] == s[j];
      assert FirstKey(ids, m, j + 1);
    }
    if |ks| >= 2 {
      var j1, j2 :| SecondKey(s, m, j1, j2) && kt[1] == s[j2];
      assert SecondKey(ids, m, j1 + 1, j2 + 1);
    }
    if |ks| == 1 {
      var j :| OnlyKey(s, m, j);
      assert OnlyKey(ids, m, j + 1);
    }
    if j :| OnlyKey(ids, m, j) {
      assert OnlyKey(s, m, j - 1);
    }
  }

  lemma {:induction false} InVertexOrderHead<V>(ids: seq<int>, m: map<int, V>)
    ensures HeadKeys(ids, m)
  {
    if ids != [] {
      assert ids == [ids[0]] + ids[1..];
      InVertexOrderHead(ids[1..], m);
      if ids[0] in m {
        HeadKeysIn(ids[0], ids[1..], m);
      } else {
        HeadKeysOut(ids[0], ids[1..], m);
      }
    }
  }

  lemma {:induction false} FilterMembers(p: int -> bool, s: seq<int>)
    ensures forall x :: x in Filter(p, s) <==> x in s && p(x)
  {
    if s != [] {
      var n := |s| - 1;
      FilterMembers(p, s[..n]);
      assert s == s[..n] + [s[n]];
    }
  }

  lemma {:induction false} FilterDistinct(p: int -> bool, s: seq<int>)
    requires Distinct(s)
    ensures Distinct(Filter(p, s))
  {
    if s != [] {
      var n := |s| - 1;
      FilterDistinct(p, s[..n]);
      FilterMembers(p, s[..n]);
      assert s == s[..n] + [s[n]];
      assert s[n] !in s[..n];
    }
  }

  /** Filtering with predicates that agree on the sequence's elements. */
  lemma {:induction false} FilterAgree(p: int -> bool, q: int -> bool, s: seq<int>)
    requires forall k :: 0 <= k < |s| ==> p(s[k]) == q(s[k])
    ensures Filter(p, s) == Filter(q, s)
  {
    if s != [] {
      FilterAgree(p, q, s[..|s| - 1]);
    }
  }

  lemma {:induction false} DistinctCard(s: seq<int>)
    requires Distinct(s)
    ensures |Elems(s)| == |s|
  {
    if s != [] {
      var n := |s| - 1;
      DistinctCard(s[..n]);
      assert s == s[..n] + [s[n]];
      assert Elems(s) == Elems(s[..n]) + {s[n]};
      assert s[n] !in Elems(s[..n]);
    }
  }

  /** In a well-formed graph, a map whose keys are the vertices passing `p`
      lists them in vertex order, each once. */
  lemma InVertexOrderIsFilter<V>(g: Graph, m: map<int, V>, p: int -> bool)
    requires Valid(g) && forall v :: v in m <==> v in g.code && p(v)
    ensures InVertexOrder(g.ids, m) == Filter(p, g.ids)
    ensures |m| == |Filter(p, g.ids)|
  {
    var s := Filter(p, g.ids);
    IdsHaveCodes(g);
    var inM := (v: int) => v in m;
    forall k | 0 <= k < |g.ids| ensures inM(g.ids[k]) == p(g.ids[k]) {
      var x := g.ids[k];
      assert x in g.code;
      assert x in m <==> p(x);
    }
    FilterAgree(inM, p, g.ids);
    FilterMembers(p, g.ids);
    FilterDistinct(p, g.ids);
    DistinctCard(s);
    assert m.Keys == Elems(s) by {
      forall x ensures x in m <==> x in s {
        assert x in g.code <==> x in g.ids;
      }
    }
  }

  /** The B vertices, in vertex order. */
  function BVertices(g: Graph): (r: seq<int>)
    requires Valid(g)
    ensures forall k :: 0 <= k < |r| ==> r[k] in g.code && r[k] in g.dau && IsBCode(g.code[r[k]])
  {
    var r := Filter(CodeIs(g, IsBCode), g.ids);
    assert forall k :: 0 <= k < |r| ==> r[k] in g.code && IsBCode(g.code[r[k]]) by {
      forall k | 0 <= k < |r| ensures r[k] in g.code && IsBCode(g.code[r[k]]) {
        assert CodeIs(g, IsBCode)(r[k]);
      }
    }
    assert forall k :: 0 <= k < |r| ==> r[k] in g.dau by {
      forall k | 0 <= k < |r| ensures r[k] in g.dau {
        CodesHaveDaughters(g, r[k]);
      }
    }
    r
  }

  /** The Upsilon vertices whose daughters are all B mesons, in vertex order. */
  function YVertices(g: Graph): (r: seq<int>)
    ensures forall k :: 0 <= k < |r| ==> HasMcY(g, r[k])
  {
    Filter((v: int) => HasMcY(g, v), g.ids)
  }

  /** The B cache after the depth-first pass, read in vertex order, lists
      the B vertices. */
  lemma McDfsBOrder(g: Graph)
    requires Valid(g)
    ensures InVertexOrder(g.ids, McDfs(g).b) == BVertices(g)
    ensures |McDfs(g).b| == |BVertices(g)|
  {
    McDfsContents(g);
    InVertexOrderIsFilter(g, McDfs(g).b, CodeIs(g, IsBCode));
  }

  lemma McDfsYOrder(g: Graph)
    requires Valid(g)
    ensures InVertexOrder(g.ids, McDfs(g).y) == YVertices(g)
    ensures |McDfs(g).y| == |YVertices(g)|
  {
    McDfsContents(g);
    InVertexOrderIsFilter(g, McDfs(g).y, (v: int) => HasMcY(g, v));
  }
}
