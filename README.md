# BDtaunu tuple analyzer: per-event graph core

This project models the per-event core of the BDtaunu tuple analyzer. The analyzer reads BaBar
ntuples of reconstructed Υ(4S) → B_tag B_sig candidates. For each event it does four things:

1. It builds a **reconstruction graph** of all candidates: Υ(4S), B, D/D*, charged
   candidates, h, ℓ and γ.
2. It builds a **Monte Carlo graph** of the generator record.
3. It classifies every vertex bottom-up:
   - D and D* modes come from the decay catalogues;
   - the τ mode comes from the lepton candidate;
   - B flavour plus its D and lepton daughters;
   - the tag/sig pairing of each Υ(4S).
4. It contracts the MC graph to the particles the detector can see, and **truth-matches** every
   reco vertex against it.

The Υ(4S) candidate then carries the `CandType` and `SampleType` codes derived from those
classifications.

The model is split by source module:

| module | models |
|---|---|
| `Defs` | Lund constants and the enumerations: modes, flavours, candidate and sample types, catalogue symbols with their sort ranks |
| `Catalogue` | D, D* and B_MC decay catalogues. The final-state trie is a table of registered words: `Register` gives the last value registered per word, and `Find` returns null when the word is absent |
| `GraphDef` | The reco indexer, which packs candidate-block indices into one vertex range. Also the fresh attribute records |
| `Graphs` | Identifier-keyed directed graphs and the depth-first finish order |
| `RecoGraph`, `RecoManager` | Construction of the reconstruction graph, and the manager object |
| `RecoGraphVisitors` | The reconstruction classifiers and the finish-vertex dispatch |
| `McGraph`, `McManager` | MC graph construction, and the MC manager object |
| `McGraphVisitors` | The MC classifiers, the depth-first analysis and the vertex order the getters follow |
| `TruthMatch`, `TmManager` | The cleave test, MC graph contraction, final-state and composite truth matching, and the manager object |
| `Candidates` | The Υ(4S) candidate record and its derived type codes |

Modelling conventions:

- A C++ `assert`, an `.at()` that throws, or a dereferenced end iterator becomes the
  `Abort` case of `Result`. The operations state exactly which inputs reach it.
- Boost vertex descriptors become integer identifiers. Property maps and `std::map`
  caches become Dafny maps.
- Each manager is a `class`, and its analysis methods change only its caches. Every
  method is proved equal to a specification function, and the properties the source
  relies on are lemmas about those functions.
- `std::sort` is `Sorting.SortBy`. With an injective key it is the unique sorted
  permutation of its input.

## Model

| member | source | states |
|---|---|---|
| Defs.LundCodesDistinctPositive | bdtaunu_tuple_analyzer/BDtaunuDef.h:19-40 | The particle codes the analyzer dispatches on are positive and pairwise distinct, so testing `abs(lund)` against them never confuses two particles |
| Defs.DTypeValues | bdtaunu_tuple_analyzer/BDtaunuDef.h:56-73 | The D modes carry pairwise distinct integer values 1..15; null alone has value -1 |
| Defs.DstarTypeValues | bdtaunu_tuple_analyzer/BDtaunuDef.h:75-83 | "No D*" (0) differs from the undefined D* mode (-1); all D* values are distinct and lie in -1..5 |
| Defs.CandTypeOf | bdtaunu_tuple_analyzer/BDtaunuDef.h:194-204 | Casting an integer 0..7 to a candidate type gives the type whose value is that integer |
| Defs.CandTypeBits | bdtaunu_tuple_analyzer/BDtaunuDef.h:185-204 | Every defined candidate type is a 3-bit number: bit 2 marks τ→ρ, bit 1 a tag-side D*, bit 0 a signal-side D*. Casting the value back returns the type |
| Defs.SampleTypeOf | bdtaunu_tuple_analyzer/BDtaunuDef.h:210-216 | Casting an integer 0..3 to a sample type gives the type whose value is that integer |
| Defs.SampleTypeBits | bdtaunu_tuple_analyzer/BDtaunuDef.h:206-216 | Every defined sample type is a 2-bit number: bit 1 marks a neutral B, bit 0 a D*. Casting back returns the type |
| Defs.RecoRankIsOrder | bdtaunu_tuple_analyzer/BDtaunuDef.h:96-98 | Sorting reco symbols by value is a strict total order with the terminator first, and D*± < D*0 < D± as the enum lists them |
| Defs.McRankIsOrder | bdtaunu_tuple_analyzer/BDtaunuDef.h:145-147 | Sorting MC symbols by value is a strict total order with the terminator first, and ν_ℓ < ν_τ < ℓ |
| Sorting.SortBy | bdtaunu_tuple_analyzer/BDtaunuDef.cc:17 | The sorted word is ordered by the key and is a permutation of its input |
| Sorting.SortByPermutation | bdtaunu_tuple_analyzer/BDtaunuDef.cc:17 | With an injective key, two permutations of the same elements sort to the same sequence |
| Catalogue.LastRowForIsFind | bdtaunu_tuple_analyzer/BDtaunuDef.cc:13-20 | Looking a word up in the registered table yields the value of the last row that spelled it, or the null value |
| Catalogue.RegisterFinds | bdtaunu_tuple_analyzer/BDtaunuDef.cc:35-38 | A row never overridden by a later row with the same word is found under that word |
| Catalogue.RegisterSound | bdtaunu_tuple_analyzer/BDtaunuDef.cc:35-38 | Every entry of the registered table comes from some catalogue row |
| Catalogue.RegisterKeys | bdtaunu_tuple_analyzer/BDtaunuDef.cc:35-38 | A word is registered exactly when some catalogue row spells it |
| Catalogue.FindMissingIff | bdtaunu_tuple_analyzer/BDtaunuDef.cc:19 | When no row registers the not-found label, the lookup returns that label exactly for words no row spells |
| Catalogue.LundToRecoSym | bdtaunu_tuple_analyzer/BDtaunuDef.cc:138-171 | The reco alphabet maps exactly the nine D-decay particle codes, and no others, to a non-null symbol |
| Catalogue.RecoSymLund | bdtaunu_tuple_analyzer/BDtaunuDef.cc:138-171 | Each non-null reco symbol has a particle code that maps back to it (a right inverse of the alphabet) |
| Catalogue.RecoSymIgnoresSign | bdtaunu_tuple_analyzer/BDtaunuDef.cc:138-139 | Charge conjugation (negating the code) changes neither the symbol nor whether the code is in the alphabet |
| Catalogue.RecoWord | bdtaunu_tuple_analyzer/BDtaunuDef.cc:15-18 | The canonical word has one symbol per daughter code followed by the null terminator |
| Catalogue.BuildRecoWord | bdtaunu_tuple_analyzer/BDtaunuDef.cc:14-18 | The word-building loop aborts exactly when a code lies outside the alphabet; otherwise it yields the canonical word |
| Catalogue.SearchDCatalogue | bdtaunu_tuple_analyzer/BDtaunuDef.cc:13-20 | The imperative D search (build, sort, terminate, look up) equals the specification `SearchD` |
| Catalogue.SearchDstarCatalogue | bdtaunu_tuple_analyzer/BDtaunuDef.cc:22-29 | The imperative D* search equals the specification `SearchDstar` |
| Catalogue.RecoWordPermutation | bdtaunu_tuple_analyzer/BDtaunuDef.cc:14-18 | The canonical word, and whether it is defined, depend only on the multiset of daughter codes |
| Catalogue.SearchRecoPermutation | bdtaunu_tuple_analyzer/BDtaunuDef.cc:13-29 | The D and D* searches do not depend on the order of the daughters |
| Catalogue.SearchDNullIffUnregistered | bdtaunu_tuple_analyzer/BDtaunuDef.cc:13-20 | The D search aborts exactly on codes outside the alphabet. It answers null exactly when the canonical word is not in the D catalogue |
| Catalogue.SearchDstarNullIffUnregistered | bdtaunu_tuple_analyzer/BDtaunuDef.cc:22-29 | The same two facts for the D* catalogue |
| Catalogue.DRowsDistinct | bdtaunu_tuple_analyzer/BDtaunuDef.cc:35-108 | No two D-catalogue rows spell the same word, and every row registers a non-null mode |
| Catalogue.DstarRowsDistinct | bdtaunu_tuple_analyzer/BDtaunuDef.cc:111-134 | No two D*-catalogue rows spell the same word, and every row registers a non-null mode |
| Catalogue.SortedBodyIsCanonical | bdtaunu_tuple_analyzer/BDtaunuDef.cc:14-19 | A row spelled in sorted order is exactly the canonical word of its own particle codes |
| Catalogue.DRowsOrder | bdtaunu_tuple_analyzer/BDtaunuDef.cc:35-108 | Every D row except the D± → K_S K row is spelled in sorted order; that row is the only Dc_KsK row |
| Catalogue.DRowsReachable | bdtaunu_tuple_analyzer/BDtaunuDef.cc:35-108 | Every sorted D row is found by a search over its own daughter codes |
| Catalogue.DstarRowsReachable | bdtaunu_tuple_analyzer/BDtaunuDef.cc:111-134 | Every D* row is found by a search over its own daughter codes |
| Catalogue.DcKsKUnreachable | bdtaunu_tuple_analyzer/BDtaunuDef.cc:45-48 | No list of daughter codes makes the D search answer Dc_KsK |
| Catalogue.D0KpiRow | bdtaunu_tuple_analyzer/BDtaunuDef.cc:70-73 | Any ordering or charge conjugation of (D0, K, π) daughters is classified D0_Kpi |
| Catalogue.Dstar0D0pi0Row | bdtaunu_tuple_analyzer/BDtaunuDef.cc:111-114 | Any ordering of (D*0, D0, π0) codes is classified Dstar0_D0pi0 |
| Catalogue.LundToMcSym | bdtaunu_tuple_analyzer/BDtaunuDef.cc:372-417 | The MC alphabet is total: every code maps to a non-terminator symbol, and unknown codes map to X |
| Catalogue.SearchMcCatalogue | bdtaunu_tuple_analyzer/BDtaunuDef.cc:177-197 | The imperative B_MC search (drop ignored symbols, sort, collapse X, terminate, look up) equals `SearchMc` |
| Catalogue.McSymIgnoresSign | bdtaunu_tuple_analyzer/BDtaunuDef.cc:372-373 | The MC symbol of a code and of its antiparticle agree |
| Catalogue.McWordOfPermutation | bdtaunu_tuple_analyzer/BDtaunuDef.cc:179-194 | The canonical MC word depends only on the multiset of symbols |
| Catalogue.SearchMcPermutation | bdtaunu_tuple_analyzer/BDtaunuDef.cc:177-197 | The B_MC classification does not depend on the order of the B daughters |
| Catalogue.SearchMcIgnoresPhotons | bdtaunu_tuple_analyzer/BDtaunuDef.cc:181-184 | Inserting an ignored particle (a photon) anywhere among the daughters leaves the B_MC classification unchanged |
| Catalogue.McWordWildcard | bdtaunu_tuple_analyzer/BDtaunuDef.cc:180-194 | However many unnamed particles a B has, its word holds exactly one X (just before the terminator), or none when there are no unnamed particles. So another unnamed particle does not change the word |
| Catalogue.McRowsLabelled | bdtaunu_tuple_analyzer/BDtaunuDef.cc:199-370 | Every B_MC catalogue row registers a non-null mode |
| Catalogue.McRowsNotOverridden | bdtaunu_tuple_analyzer/BDtaunuDef.cc:199-370 | The D τ ν and D π π0 τ ν rows are not overridden by any later row |
| Catalogue.McDtauRow | bdtaunu_tuple_analyzer/BDtaunuDef.cc:207-210 | Any ordering or conjugation of (ν_τ, τ, D) daughters is classified Dtau |
| Catalogue.McDpipi0tauRow | bdtaunu_tuple_analyzer/BDtaunuDef.cc:227-231 | D π π0 τ ν collapses its two unnamed pions into one X and is classified as non-resonant D** |
| GraphDef.FreshRecords | bdtaunu_tuple_analyzer/GraphDef.h:59-187 | The default attribute records: block indices negative, modes null, "no D*" for the D* mode, no daughters attached, and an MC Υ(4S) that starts as B B̄ |
| GraphDef.RecoIndexer.constructor | bdtaunu_tuple_analyzer/GraphDef.cc:12-14 | A default indexer has all seven block counts zero |
| GraphDef.RecoIndexer.WithCounts | bdtaunu_tuple_analyzer/GraphDef.cc:16-20 | The counting constructor stores the seven block sizes in band order |
| GraphDef.RecoIndexer.RecoIdx | bdtaunu_tuple_analyzer/GraphDef.cc:29-58 | A code outside every band gets index -1. Otherwise the index is the band's offset plus the block index |
| GraphDef.RecoIndexer.Set | bdtaunu_tuple_analyzer/GraphDef.cc:88-101 | The setter replaces all seven counts with the given ones |
| GraphDef.RecoIndexer.Clear | bdtaunu_tuple_analyzer/GraphDef.cc:78-86 | After clearing, every count and the total are zero |
| GraphDef.RecoIndexer.TotalIsLastOffset | bdtaunu_tuple_analyzer/GraphDef.h:135 | The number of reco vertices is the offset past the last band, and the first band starts at 0 |
| GraphDef.RecoIndexer.RecoIdxInRange | bdtaunu_tuple_analyzer/GraphDef.cc:29-55 | An in-range block index lands inside its band's slice of `[0, total)` |
| GraphDef.RecoIndexer.RecoIdxInjective | bdtaunu_tuple_analyzer/GraphDef.cc:29-55 | Two in-range candidates share an index only when they are in the same band and have the same block index, so the packing is collision-free |
| GraphDef.RecoIndexer.RecoIdxIgnoresSign | bdtaunu_tuple_analyzer/GraphDef.cc:31 | The index does not depend on the charge sign of the code |
| GraphDef.RecoIndexer.MembershipIsBandImage | bdtaunu_tuple_analyzer/GraphDef.cc:60-76 | `is_h`, `is_l` and `is_gamma` hold exactly on the indices the h, ℓ and γ candidates are given (π and K share h; e and μ share ℓ) |
| GraphDef.RecoIndexer.MembershipExclusive | bdtaunu_tuple_analyzer/GraphDef.cc:60-76 | No index is in two of the h, ℓ, γ bands |
| Graphs.AddVertexValid | bdtaunu_tuple_analyzer/RecoGraphManager.cc:166-171 | Adding a vertex keeps the graph well formed: identifiers distinct, with a code and a daughter list each, and edges between vertices |
| Graphs.AddEdgeValid | bdtaunu_tuple_analyzer/RecoGraphManager.cc:196 | Adding an edge between two existing vertices keeps the graph well formed |
| Graphs.PostOrder | bdtaunu_tuple_analyzer/RecoGraphManager.cc:89 | The depth-first finish order lists every vertex exactly once |
| Graphs.PostOrderDaughtersFirst | bdtaunu_tuple_analyzer/RecoGraphManager.cc:84-92 | In an acyclic graph every daughter finishes before its mother, which is what the bottom-up visitors rely on |
| RecoGraph.TouchCoherent | bdtaunu_tuple_analyzer/RecoGraphManager.cc:164-174 | Inserting a candidate vertex keeps the graph and its block-index map coherent and extends the previous graph without overwriting it |
| RecoGraph.ScannedStops | bdtaunu_tuple_analyzer/RecoGraphManager.cc:179-182 | The daughter scan stops at the first -1 slot or at the end of the slots, and every daughter scanned has a real index |
| RecoGraph.ScanSlotsCoherent | bdtaunu_tuple_analyzer/RecoGraphManager.cc:179-198 | Scanning a candidate's daughter slots keeps the graph coherent and extends it |
| RecoGraph.ScanSlotsEdges | bdtaunu_tuple_analyzer/RecoGraphManager.cc:179-198 | The candidate's daughter list gains exactly the scanned daughters, in slot order |
| RecoGraph.ScanSlotsOnlyFromU | bdtaunu_tuple_analyzer/RecoGraphManager.cc:179-198 | The daughter lists of all other vertices are unchanged by the scan |
| RecoGraph.AddCandsCoherent | bdtaunu_tuple_analyzer/RecoGraphManager.cc:156-199 | Adding a whole candidate block keeps the graph coherent |
| RecoGraph.AddCandsExtends | bdtaunu_tuple_analyzer/RecoGraphManager.cc:164-194 | A block only adds vertices and appends edges. A vertex already present keeps its code and block index |
| RecoGraph.AddCandsHasCandidates | bdtaunu_tuple_analyzer/RecoGraphManager.cc:156-174 | Every candidate of the block is a vertex afterwards |
| RecoGraph.AddCandsHasDaughters | bdtaunu_tuple_analyzer/RecoGraphManager.cc:179-194 | Every scanned daughter of every candidate is a vertex afterwards |
| RecoManager.BuildAllCoherent | bdtaunu_tuple_analyzer/RecoGraphManager.cc:38-72 | Building from the six candidate blocks yields a coherent graph |
| RecoManager.BuildAllHasY | bdtaunu_tuple_analyzer/RecoGraphManager.cc:38-72 | Every Υ(4S) candidate becomes a vertex of the built graph |
| RecoManager.CollectCodes | bdtaunu_tuple_analyzer/RecoGraphVisitors.cc:61-67 | The loop collects the D's own code followed by its daughters' codes |
| RecoManager.RecoGraphManager.constructor | bdtaunu_tuple_analyzer/RecoGraphManager.cc:17-18 | A new manager has a fresh zero indexer, an empty graph and empty caches |
| RecoManager.RecoGraphManager.ClearGraph | bdtaunu_tuple_analyzer/RecoGraphManager.cc:30-34 | Clearing the graph empties it and zeroes the indexer, keeping the caches |
| RecoManager.RecoGraphManager.ClearAnalysis | bdtaunu_tuple_analyzer/RecoGraphManager.cc:76-81 | Clearing the analysis empties all four caches, keeping the graph |
| RecoManager.RecoGraphManager.Clear | bdtaunu_tuple_analyzer/RecoGraphManager.cc:24-27 | Clearing everything leaves an empty graph, a zero indexer and empty caches |
| RecoManager.RecoGraphManager.AddCandidates | bdtaunu_tuple_analyzer/RecoGraphManager.cc:131-200 | The insertion loop's new graph is the specification `AddCands`, which is coherent and extends the old graph (lemmas above). The caches are untouched |
| RecoManager.RecoGraphManager.ScanDaughters | bdtaunu_tuple_analyzer/RecoGraphManager.cc:179-198 | The daughter-slot loop's new graph is `ScanSlots` |
| RecoManager.RecoGraphManager.ConstructGraph | bdtaunu_tuple_analyzer/RecoGraphManager.cc:38-72 | The indexer is set from the event's block sizes. The graph is rebuilt from scratch, is coherent and contains every candidate |
| RecoManager.RecoGraphManager.AnalyzeD | bdtaunu_tuple_analyzer/RecoGraphVisitors.cc:55-73 | Succeeds exactly when the D mode search does, and caches the D record the catalogue assigns to the vertex |
| RecoManager.RecoGraphManager.AnalyzeDstar | bdtaunu_tuple_analyzer/RecoGraphVisitors.cc:78-112 | Succeeds exactly when every daughter of the D* is a D or a soft pion/photon. It caches the D* mode and the D mode of the last D daughter |
| RecoManager.RecoGraphManager.AnalyzeLepton | bdtaunu_tuple_analyzer/RecoGraphVisitors.cc:121-165 | Always succeeds and caches the lepton record. Which τ mode and block indices it holds is stated by `LeptonRecOf` |
| RecoManager.RecoGraphManager.AnalyzeB | bdtaunu_tuple_analyzer/RecoGraphVisitors.cc:172-206 | Succeeds exactly when every daughter is a D/D* or lepton, and caches the flavour with the last such daughters |
| RecoManager.RecoGraphManager.AnalyzeY | bdtaunu_tuple_analyzer/RecoGraphVisitors.cc:214-238 | Succeeds exactly when every daughter is a B with a lepton, and caches which B is tag and which is signal |
| RecoManager.RecoGraphManager.FinishVertex | bdtaunu_tuple_analyzer/RecoGraphVisitors.cc:23-51 | The finish dispatch aborts or updates the caches exactly as `Finish` does. `FinishKeys` states which cache gains the vertex |
| RecoManager.RecoGraphManager.AnalyzeGraph | bdtaunu_tuple_analyzer/RecoGraphManager.cc:84-92 | Running the visitor over the whole graph gives the caches of `Analysis`. `AnalysisKeys` states which vertices each cache holds |
| RecoManager.RecoGraphManager.GetRecoY | bdtaunu_tuple_analyzer/RecoGraphManager.cc:95-106 | The getter succeeds exactly when the i-th Υ(4S) candidate has a vertex and a cached record, and then returns that record; otherwise it aborts, as the two asserts demand |
| RecoManager.RecoGraphManager.GetRecoYAfterAnalysis | bdtaunu_tuple_analyzer/RecoGraphManager.cc:95-106 | After a successful analysis, the getter succeeds exactly for Υ(4S) vertices of the graph |
| RecoManager.RecoGraphManager.GetRecoYValue | bdtaunu_tuple_analyzer/RecoGraphManager.cc:95-106 | After a successful analysis of an acyclic graph, the returned record is the Υ(4S) scan of the candidate's daughters: tag B is its last B daughter whose lepton has a block index ≥ 0, signal B its last other B daughter |
| RecoGraphVisitors.Put | bdtaunu_tuple_analyzer/RecoGraphVisitors.cc:71 | Like `std::map::insert`: adds the key, never overwrites an existing entry, and keeps every other entry |
| RecoGraphVisitors.KindOfCodes | bdtaunu_tuple_analyzer/RecoGraphVisitors.cc:23-51 | The finish dispatch classes are exactly the stated sets of absolute codes |
| RecoGraphVisitors.DRecIgnoresDaughterOrder | bdtaunu_tuple_analyzer/RecoGraphVisitors.cc:55-73 | The D record does not depend on the order in which daughters were attached |
| RecoGraphVisitors.DstarScanOk | bdtaunu_tuple_analyzer/RecoGraphVisitors.cc:89-106 | The D* daughter scan aborts exactly when some daughter is neither a D nor a soft pion/photon |
| RecoGraphVisitors.DstarScanCodes | bdtaunu_tuple_analyzer/RecoGraphVisitors.cc:89-106 | The scan collects every daughter's code, in order |
| RecoGraphVisitors.DstarScanMode | bdtaunu_tuple_analyzer/RecoGraphVisitors.cc:92-96 | The D mode kept is the one of the last D daughter, or the incoming one if there is none |
| RecoGraphVisitors.DstarRecOfResult | bdtaunu_tuple_analyzer/RecoGraphVisitors.cc:78-112 | The D* record exists exactly under the scan condition, and then holds the D* catalogue mode of its codes and the last D daughter's mode |
| RecoGraphVisitors.LeptonRecOf | bdtaunu_tuple_analyzer/RecoGraphVisitors.cc:121-165 | e and μ give τ→μ (the e case falls through) with the lepton block index; π gives τ→π with the pion index; ρ gives τ→ρ with its pion daughter's index |
| RecoGraphVisitors.BScanOk | bdtaunu_tuple_analyzer/RecoGraphVisitors.cc:182-203 | The B daughter scan aborts exactly when some daughter is neither a D/D* nor a lepton |
| RecoGraphVisitors.BScanValue | bdtaunu_tuple_analyzer/RecoGraphVisitors.cc:182-203 | The B record points at the last D/D* daughter and the last lepton daughter |
| RecoGraphVisitors.YScanOk | bdtaunu_tuple_analyzer/RecoGraphVisitors.cc:218-235 | The Υ(4S) scan aborts exactly when some daughter is not a B with a lepton |
| RecoGraphVisitors.YScanValue | bdtaunu_tuple_analyzer/RecoGraphVisitors.cc:218-235 | A B whose lepton is a real e/μ (block index ≥ 0) becomes the tag side, otherwise the signal side; the last such B wins |
| RecoGraphVisitors.RecordOf | bdtaunu_tuple_analyzer/RecoGraphVisitors.cc:23-51 | Each dispatch class yields a record of its own kind; any other vertex yields none |
| RecoGraphVisitors.Store | bdtaunu_tuple_analyzer/RecoGraphVisitors.cc:71 | Storing adds the vertex to exactly the cache of its record's kind and changes no existing entry |
| RecoGraphVisitors.FinishKeys | bdtaunu_tuple_analyzer/RecoGraphVisitors.cc:23-51 | Finishing a vertex adds it to the cache of its class. A vertex of no analysed class leaves the caches unchanged |
| RecoGraphVisitors.AnalyzeOrderKeys | bdtaunu_tuple_analyzer/RecoGraphManager.cc:84-92 | After visiting a sequence of vertices, each cache holds exactly the old keys plus the visited vertices of its class |
| RecoGraphVisitors.AnalysisKeys | bdtaunu_tuple_analyzer/RecoGraphManager.cc:84-92 | After a whole-graph analysis, each cache holds exactly the graph's vertices of its class |
| RecoGraphVisitors.AnalysisYRecord | bdtaunu_tuple_analyzer/RecoGraphVisitors.cc:214-238 | In an acyclic graph, the Υ(4S) record a successful analysis caches is the scan of its daughters over the final caches, so the B records it reads are the ones finally cached |
| RecoGraphVisitors.DaughtersFinishedBefore | bdtaunu_tuple_analyzer/RecoGraphManager.cc:89 | In the finish order every daughter of a vertex comes earlier |
| RecoGraphVisitors.DaughterRecordsReady | bdtaunu_tuple_analyzer/RecoGraphVisitors.cc:93-96 | In a graph without cycles, when a vertex is finished its B, D/D* and lepton daughters already have their records cached, so no `operator[]` read inserts a default |
| McGraph.FinalStateFacts | bdtaunu_tuple_analyzer/McGraphManager.cc:18-27 | The final-state test ignores the charge sign and never holds for Υ(4S), B or τ codes |
| McGraph.DaughterRange | bdtaunu_tuple_analyzer/McGraphManager.cc:88-91 | Every linked daughter index lies inside the MC particle list |
| McGraph.LinkDaughtersShape | bdtaunu_tuple_analyzer/McGraphManager.cc:88-103 | Linking a particle's daughters gives it exactly its listed daughters, and does not touch unlinked particles |
| McGraph.AddParticlesShape | bdtaunu_tuple_analyzer/McGraphManager.cc:66-104 | After all particles are added, every particle carries its own code and is linked to its listed daughters |
| McGraph.McBuildShape | bdtaunu_tuple_analyzer/McGraphManager.cc:48-105 | The MC graph is well formed. Its vertices are exactly the particle indices, each with its own code and its listed daughters |
| McGraph.McBuildFirstSeenOrder | bdtaunu_tuple_analyzer/McGraphManager.cc:67-101 | Vertices are numbered in first-seen order (a particle, then its daughters not yet inserted), not by MC index: particle 0 with only daughter 2 gives the vertex order 0, 2, 1 |
| McGraphVisitors.TauScanFirstLepton | bdtaunu_tuple_analyzer/McGraphVisitors.cc:106-117 | The τ daughter scan labels the τ by its first e or μ daughter; failing that, by hadronic daughters |
| McGraphVisitors.TauRecOfLabels | bdtaunu_tuple_analyzer/McGraphVisitors.cc:101-120 | A τ is never labelled τ→K, and it is unlabelled exactly when it has no daughters |
| McGraphVisitors.McBRecIgnoresDaughterOrder | bdtaunu_tuple_analyzer/McGraphVisitors.cc:73-97 | The MC B flavour and mode do not depend on daughter order |
| McGraphVisitors.McYScanValue | bdtaunu_tuple_analyzer/McGraphVisitors.cc:49-64 | The Υ(4S) scan succeeds exactly when every daughter is a B. b1 is then the first B, and b2 is the last B when there are at least two |
| McGraphVisitors.McYOfIsBBbar | bdtaunu_tuple_analyzer/McGraphVisitors.cc:45-67 | A stored MC Υ(4S) record always says B B̄, with b1 the first daughter, and b2 the last daughter when there are at least two |
| McGraphVisitors.McFinish | bdtaunu_tuple_analyzer/McGraphVisitors.cc:23-40 | Finishing adds the vertex to exactly the cache of its class. An Υ(4S) whose daughters are not all B gains no record |
| McGraphVisitors.FinishY | bdtaunu_tuple_analyzer/McGraphVisitors.cc:45-67 | The Υ(4S) cache gains the vertex only when its record is defined |
| McGraphVisitors.FinishB | bdtaunu_tuple_analyzer/McGraphVisitors.cc:73-97 | The B cache gains exactly the B vertices |
| McGraphVisitors.FinishTau | bdtaunu_tuple_analyzer/McGraphVisitors.cc:101-120 | The τ cache gains exactly the τ vertices |
| McGraphVisitors.McAnalyzeOrderContents | bdtaunu_tuple_analyzer/McGraphManager.cc:115-120 | Visiting a vertex sequence keeps every cached record equal to its vertex's record, and adds exactly the visited vertices of each class |
| McGraphVisitors.McDfsContents | bdtaunu_tuple_analyzer/McGraphManager.cc:115-120 | After the MC analysis, each cache holds exactly the graph's vertices of its class, each with its own record |
| McGraphVisitors.McDaughterRecordsReady | bdtaunu_tuple_analyzer/McGraphVisitors.cc:54-91 | In a graph without cycles, when a vertex is finished its B and τ daughters are already cached, so the `B_map[*ai]` and `Tau_map[*ai]` reads insert no default |
| McGraphVisitors.McAnalysis | bdtaunu_tuple_analyzer/McGraphManager.cc:115-124 | A successful analysis has at most one Υ(4S) and either zero or two Bs, as the source asserts |
| McGraphVisitors.InVertexOrderIsFilter | bdtaunu_tuple_analyzer/McGraphManager.cc:126-148 | Reading a cache in vertex order lists exactly its keys in vertex order |
| McGraphVisitors.InVertexOrderHead | bdtaunu_tuple_analyzer/McGraphManager.cc:126-148 | A cache read in vertex order is empty exactly when no vertex is a key. It starts with the first key and then the second, and has one element exactly when one vertex is a key |
| McGraphVisitors.McDfsBOrder | bdtaunu_tuple_analyzer/McGraphManager.cc:134-148 | The B cache read in map order lists the B vertices in vertex order |
| McGraphVisitors.McDfsYOrder | bdtaunu_tuple_analyzer/McGraphManager.cc:126-132 | The Υ(4S) cache read in map order lists the Υ(4S) vertices with a record |
| McManager.McGraphManager.constructor | bdtaunu_tuple_analyzer/McGraphManager.cc:29-30 | A new manager has an empty graph and empty caches |
| McManager.McGraphManager.ClearGraph | bdtaunu_tuple_analyzer/McGraphManager.cc:42-45 | Clearing the graph empties it and keeps the caches |
| McManager.McGraphManager.ClearAnalysis | bdtaunu_tuple_analyzer/McGraphManager.cc:108-112 | Clearing the analysis empties the caches and keeps the graph |
| McManager.McGraphManager.Clear | bdtaunu_tuple_analyzer/McGraphManager.cc:36-39 | Clearing everything empties both |
| McManager.McGraphManager.LinkDaughtersOf | bdtaunu_tuple_analyzer/McGraphManager.cc:88-103 | The daughter-linking loop's graph is `LinkDaughters`, whose shape is proved above |
| McManager.McGraphManager.ConstructGraph | bdtaunu_tuple_analyzer/McGraphManager.cc:48-105 | The constructed graph is `McBuild` of the event, proved well formed and faithful to the particle list |
| McManager.McGraphManager.AnalyzeY | bdtaunu_tuple_analyzer/McGraphVisitors.cc:45-67 | The Υ(4S) record is cached only when it is defined. Other caches are unchanged |
| McManager.McGraphManager.AnalyzeB | bdtaunu_tuple_analyzer/McGraphVisitors.cc:73-97 | The B's catalogue record is cached |
| McManager.McGraphManager.ScanBDaughters | bdtaunu_tuple_analyzer/McGraphVisitors.cc:83-93 | The loop keeps the last τ daughter and collects the daughters' codes in order |
| McManager.McGraphManager.AnalyzeTau | bdtaunu_tuple_analyzer/McGraphVisitors.cc:101-120 | The τ record is cached |
| McManager.McGraphManager.FinishVertex | bdtaunu_tuple_analyzer/McGraphVisitors.cc:23-40 | The caches become `McFinish` of the old caches |
| McManager.McGraphManager.AnalyzeGraph | bdtaunu_tuple_analyzer/McGraphManager.cc:115-124 | The caches become the whole-graph analysis. The call succeeds exactly when the count assertions hold |
| McManager.McGraphManager.GetMcY | bdtaunu_tuple_analyzer/McGraphManager.cc:126-132 | None exactly when no Υ(4S) record is cached; otherwise the record of the first cached vertex in vertex order |
| McManager.McGraphManager.GetMcB1 | bdtaunu_tuple_analyzer/McGraphManager.cc:134-140 | None exactly when no B record is cached; otherwise the record of the first cached B vertex in vertex order |
| McManager.McGraphManager.GetMcB2 | bdtaunu_tuple_analyzer/McGraphManager.cc:142-148 | None exactly when no B record is cached. Aborts exactly when a single B record is cached. Otherwise it returns the record of the second cached B vertex in vertex order |
| McManager.McGraphManager.BGettersAfterAnalysis | bdtaunu_tuple_analyzer/McGraphManager.cc:122-148 | After a successful analysis there are no or two B vertices, and B1 and B2 are the records of the first and second B vertex in vertex order (or none) |
| McManager.McGraphManager.YGetterAfterAnalysis | bdtaunu_tuple_analyzer/McGraphManager.cc:121-132 | After a successful analysis there is at most one Υ(4S) with all-B daughters, and the Υ(4S) getter returns its record (or none) |
| TruthMatch.InEdges | bdtaunu_tuple_analyzer/TruthMatchManager.cc:89-90 | The in-edge list holds exactly the vertices with an edge into the given vertex |
| TruthMatch.InEdgesSole | bdtaunu_tuple_analyzer/TruthMatchManager.cc:89-92 | A vertex has exactly one in-edge from m exactly when m is its sole mother |
| TruthMatch.IsCleaveVertexReasons | bdtaunu_tuple_analyzer/TruthMatchManager.cc:65-108 | The cleave test answers yes exactly for neutrinos, τ and K0, the two beam particles (MC index 0 and 1), a particle whose sole mother is a final-state particle (the Υ(4S) excepted), and a photon whose sole mother is not a π0. It aborts exactly when some other particle has two or more mothers |
| TruthMatch.PruneSpec | bdtaunu_tuple_analyzer/TruthMatchManager.cc:150-151 | Removing a vertex keeps every other vertex and deletes every edge into it |
| TruthMatch.CleaveKeeps | bdtaunu_tuple_analyzer/TruthMatchManager.cc:137-151 | Cleaving a vertex keeps every other vertex and its code and removes only that vertex |
| TruthMatch.CleaveEdges | bdtaunu_tuple_analyzer/TruthMatchManager.cc:134-151 | After cleaving, the mother's daughters are its old ones plus the cleaved vertex's daughters; all other edges are kept |
| TruthMatch.CleaveContracts | bdtaunu_tuple_analyzer/TruthMatchManager.cc:134-151 | Cleaving is an edge contraction: each edge through the removed vertex becomes a direct edge |
| TruthMatch.CleavePath | bdtaunu_tuple_analyzer/TruthMatchManager.cc:134-151 | Every path between kept vertices survives cleaving, with the removed vertex skipped |
| TruthMatch.Contract | bdtaunu_tuple_analyzer/TruthMatchManager.cc:126-153 | Cleaving a list of vertices one at a time keeps the graph well formed |
| TruthMatch.ContractKeeps | bdtaunu_tuple_analyzer/TruthMatchManager.cc:126-153 | Contraction keeps exactly the vertices outside the cleave list, with their codes |
| TruthMatch.ContractPath | bdtaunu_tuple_analyzer/TruthMatchManager.cc:126-153 | Every path of the original graph whose ends are kept survives contraction, with the cleaved vertices skipped |
| TruthMatch.CleaveSetSpec | bdtaunu_tuple_analyzer/TruthMatchManager.cc:118-123 | Collecting the cleave set aborts exactly when some vertex's test aborts; otherwise it lists the cleavable vertices in vertex order |
| TruthMatch.McContract | bdtaunu_tuple_analyzer/TruthMatchManager.cc:112-155 | Contracting the MC graph keeps it well formed |
| TruthMatch.McContractKeeps | bdtaunu_tuple_analyzer/TruthMatchManager.cc:112-155 | The contracted MC graph keeps exactly the particles the cleave test leaves alone, in their order and with their codes |
| TruthMatch.McContractPath | bdtaunu_tuple_analyzer/TruthMatchManager.cc:112-155 | Every decay chain between kept particles survives, with intermediate resonances skipped |
| TruthMatch.ContractNotIdempotent | bdtaunu_tuple_analyzer/TruthMatchManager.cc:65-155 | One contraction need not reach a fixed point. In K⁺ → π0 → γγ (any four distinct MC indices other than 0 and 1), the first contraction yields exactly K⁺ → γγ: it removes the π0, whose mother is a final-state particle, and keeps the photons, whose mother is a π0. The K⁺ is then the photons' mother, so a contraction of that graph removes both photons |
| TruthMatch.KaonPi0CleaveTests | bdtaunu_tuple_analyzer/TruthMatchManager.cc:65-108 | In K⁺ → π0 → γγ the cleave test answers no for the K⁺ (no mother), yes for the π0, and no for each photon |
| TruthMatch.KaonPi0Cleave | bdtaunu_tuple_analyzer/TruthMatchManager.cc:126-152 | Cleaving the π0 gives its photons to the K⁺ and removes the π0 |
| TruthMatch.CompositeAndFinalDisjoint | bdtaunu_tuple_analyzer/TruthMatchManager.cc:228-253 | No particle code is both final-state and composite, so the finish dispatch is unambiguous |
| TruthMatch.FinalMatchTables | bdtaunu_tuple_analyzer/TruthMatchManager.cc:257-277 | A final-state reco vertex reads the hit table of its band (h, ℓ or γ) at its block index, and aborts on an index outside the table |
| TruthMatch.Matches | bdtaunu_tuple_analyzer/TruthMatchManager.cc:286-290 | A successful daughter lookup has one entry per daughter |
| TruthMatch.MatchesSpec | bdtaunu_tuple_analyzer/TruthMatchManager.cc:286-290 | The lookup aborts exactly when some daughter is unmatched; otherwise entry k is daughter k's match |
| TruthMatch.MatchesExtend | bdtaunu_tuple_analyzer/TruthMatchManager.cc:286-290 | Adding matches for other vertices does not change a vertex's daughter matches |
| TruthMatch.SortedEqualIffSameIndices | bdtaunu_tuple_analyzer/TruthMatchManager.cc:313-317 | Comparing the sorted daughter-match lists is exactly comparing them as multisets |
| TruthMatch.SortedHeadNegative | bdtaunu_tuple_analyzer/TruthMatchManager.cc:291-298 | The first sorted match is negative exactly when some daughter is unmatched (-1) |
| TruthMatch.CompositeMatchSpec | bdtaunu_tuple_analyzer/TruthMatchManager.cc:281-328 | A composite is matched to the first MC vertex with the same code whose daughters are exactly the reco daughters' matches. It gets -1 when some daughter is unmatched or no MC vertex fits |
| TruthMatch.CompositeMatchExtend | bdtaunu_tuple_analyzer/TruthMatchManager.cc:286-290 | A composite's match depends only on its daughters' matches |
| TruthMatch.TmFinishConsistent | bdtaunu_tuple_analyzer/TruthMatchManager.cc:228-253 | Finishing one vertex adds its final-state or composite match and keeps every earlier match |
| TruthMatch.MatchOrderConsistent | bdtaunu_tuple_analyzer/TruthMatchManager.cc:58-61 | Matching along a daughters-first order gives every visited vertex the match of its class |
| TruthMatch.TruthMatchesSpec | bdtaunu_tuple_analyzer/TruthMatchManager.cc:58-61 | After a full truth-match, every reco vertex carries the match defined for its class |
| TruthMatch.TruthMatchesOk | bdtaunu_tuple_analyzer/TruthMatchManager.cc:58-61 | On an acyclic reco graph whose vertices all have a final-state or composite code, and whose final-state block indices all lie inside their hit tables, the full truth-match does not abort |
| TmManager.TruthMatchManager.constructor | bdtaunu_tuple_analyzer/TruthMatchManager.cc:25-26 | A new manager has empty hit tables, empty graphs and no matches |
| TmManager.TruthMatchManager.UpdateGraph | bdtaunu_tuple_analyzer/TruthMatchManager.cc:38-55 | Copies the hit tables and the reco graph, and installs the contracted MC graph. Succeeds exactly when the contraction does |
| TmManager.TruthMatchManager.ContractMcGraph | bdtaunu_tuple_analyzer/TruthMatchManager.cc:112-155 | The MC graph becomes its contraction, and nothing else changes |
| TmManager.TruthMatchManager.ScanCleaveSet | bdtaunu_tuple_analyzer/TruthMatchManager.cc:118-123 | The loop over vertices collects `CleaveSet` or aborts with it |
| TmManager.TruthMatchManager.CleaveVertex | bdtaunu_tuple_analyzer/TruthMatchManager.cc:126-152 | The MC graph becomes its cleave at one vertex and stays well formed |
| TmManager.TruthMatchManager.CleavedGraph | bdtaunu_tuple_analyzer/TruthMatchManager.cc:129-151 | The edge-rewiring loop computes `Cleave` and keeps the graph well formed |
| TmManager.TruthMatchManager.AdoptDaughters | bdtaunu_tuple_analyzer/TruthMatchManager.cc:142-146 | The mother adopts the cleaved vertex's daughters in order |
| TmManager.TruthMatchManager.AnalyzeGraph | bdtaunu_tuple_analyzer/TruthMatchManager.cc:58-61 | The match table becomes `TruthMatches`, specified by `TruthMatchesSpec` |
| TmManager.TruthMatchManager.FinishVertex | bdtaunu_tuple_analyzer/TruthMatchManager.cc:228-254 | The match table becomes `TmFinish` of the old one |
| TmManager.TruthMatchManager.MatchFinalState | bdtaunu_tuple_analyzer/TruthMatchManager.cc:257-278 | Stores the hit-table match of a final-state vertex, or aborts on an out-of-range index |
| TmManager.TruthMatchManager.MatchCompositeState | bdtaunu_tuple_analyzer/TruthMatchManager.cc:281-328 | Stores the composite match specified by `CompositeMatchSpec` |
| TmManager.TruthMatchManager.CompositeMatchOf | bdtaunu_tuple_analyzer/TruthMatchManager.cc:281-328 | The search loop computes `CompositeMatch` |
| TmManager.TruthMatchManager.DaughterMatches | bdtaunu_tuple_analyzer/TruthMatchManager.cc:286-290 | The lookup loop computes `Matches` |
| TmManager.TruthMatchManager.FirstMcMatch | bdtaunu_tuple_analyzer/TruthMatchManager.cc:301-323 | The loop over MC vertices finds the first one with the same code and the same sorted daughters |
| TmManager.TruthMatchManager.GetTruthMatchStatus | bdtaunu_tuple_analyzer/TruthMatchManager.cc:31-35 | Returns the stored match; a vertex never matched aborts |
| TmManager.TruthMatchManager.StatusAfterAnalysis | bdtaunu_tuple_analyzer/TruthMatchManager.h:18-30 | After analysis every reco vertex has a status. Final-state vertices carry their hit-table entry and composites their composite match |
| Candidates.UpsilonCandidate.constructor | bdtaunu_tuple_analyzer/UpsilonCandidate.cc:9-43 | A default candidate carries the default record: null modes and flavours, no indices |
| Candidates.UpsilonCandidate.WithAttributes | bdtaunu_tuple_analyzer/UpsilonCandidate.cc:45-113 | The full constructor stores exactly the given attributes |
| Candidates.UpsilonCandidate.Copy | bdtaunu_tuple_analyzer/UpsilonCandidate.cc:115-117 | A copy has the same attributes as the original |
| Candidates.UpsilonCandidate.CopyCandidate | bdtaunu_tuple_analyzer/UpsilonCandidate.cc:126-161 | Copying takes every attribute of the other candidate |
| Candidates.UpsilonCandidate.Assign | bdtaunu_tuple_analyzer/UpsilonCandidate.cc:119-124 | Assignment takes the other candidate's attributes and leaves that candidate unchanged, even when it is the same object |
| Candidates.UpsilonCandidate.GetCandType | bdtaunu_tuple_analyzer/UpsilonCandidate.cc:164-179 | Defined exactly when the τ mode and both D* modes are defined. Its three bits then say τ→ρ, a tag D* and a signal D* |
| Candidates.UpsilonCandidate.GetSampleType | bdtaunu_tuple_analyzer/UpsilonCandidate.cc:184-196 | Defined exactly when the flavour and the signal D* mode are defined. Its bits then say neutral B and signal D* |
| Candidates.CandTypesDistinguish | bdtaunu_tuple_analyzer/UpsilonCandidate.cc:170-178 | Two candidates share a candidate type exactly when they agree on definedness, τ→ρ, tag D* and signal D* |
| Candidates.DefaultHasNoTypes | bdtaunu_tuple_analyzer/UpsilonCandidate.cc:166-168 | A default-constructed candidate has neither a candidate type nor a sample type; both getters abort |

## Left out

- Reading ROOT trees is not modelled. That covers `RootReader`, `BDtaunuReader`, `BDtaunuMcReader`, `FillRecoInfo`/`FillMcInfo` and the reader's block-size overflow checks. The model takes already-read candidate blocks and MC particle lists as its inputs.
- The graphviz `print*` methods, `BDtaunuGraphWriter.h` and `BDtaunuUtils` are output and kinematic helpers, not part of the graph logic.
- Boost Graph Library internals are abstracted: adjacency lists become per-vertex daughter sequences in insertion order, and `depth_first_search` becomes `Graphs.PostOrder`. The DFS color map, and the visiting of roots in vertex order, are modelled only as far as the finish order requires.
- The trie's node layout is not modelled. The catalogue is the map `Register` builds from its rows, with "the last row wins" for repeated words.
- Floating-point kinematics in `UpsilonCandidate` are opaque `real` fields that are only copied.
- Trivial getters and setters that just return or store a field are folded into the record datatypes.
- `std::map::operator[]` inserts a default entry when a key is missing. The visitors read a daughter's record this way: `D_map`, `Lepton_map` and `B_map` on the reco side (RecoGraphVisitors.cc:96, 152, 191, 197, 225-228), `B_map` and `Tau_map` on the MC side (McGraphVisitors.cc:57-58, 89). The model's reads (`RecoGraphVisitors.DOf`, `LeptonOf`, `BOf`, and the MC records built from the graph) never insert. In a graph without cycles every such read meets a cached key (`RecoGraphVisitors.DaughterRecordsReady`, `McGraphVisitors.McDaughterRecordsReady`), so the source inserts nothing and the two agree. In a graph with a cycle, a daughter reached through a back edge is read before it is finished. The source then inserts a default record, and the daughter's own later `insert` leaves that default in place. The model stores the daughter's own record instead.
- In-edge order in the contraction is not modelled; only the number of in-edges and the sole mother matter.
- The source copies the reco indexer into the truth-match manager but never reads it, so that copy is not modelled.
- The hit tables are sequences; an index outside them aborts, where the source would read out of bounds.
- Undefined behaviour in the source becomes `Abort` in the model. This covers the null dereference of a B record without a lepton in the reco Υ(4S) scan (RecoGraphVisitors.cc:225, `RecoGraphVisitors.YScan`). It also covers `get_mcB2` with a single B record, which steps past the end of the map (McGraphManager.cc:142-148, `McManager.McGraphManager.GetMcB2`). The model does not say what the source would read there.
- GraphDef.RecoIndexer.Set: requires exactly seven counts, where the source asserts it (GraphDef.cc:90). The only caller passes seven.
- RecoManager.RecoGraphManager.GetRecoYValue: states the returned Υ(4S) record only for acyclic graphs. In a graph with a cycle, a B record could be read before it is cached.
- RecoManager.RecoGraphManager.AnalyzeGraph: on a graph with a cycle the caches are `Analysis`, which holds each vertex's own record. The source keeps the default record that `operator[]` inserted for a daughter read before it finished (see the `operator[]` line above). The key sets agree on every graph.
- McGraphVisitors.McDfsContents: "each with its own record" is a statement about the model. On a graph with a cycle the source keeps a default B or τ record for a vertex that `operator[]` reached through a back edge. The key sets agree on every graph, and `McGraphVisitors.McDaughterRecordsReady` shows no default is inserted when the graph has no cycle.
- McManager.McGraphManager.AnalyzeGraph: equals `McAnalysis` over `McDfs`, so on a graph with a cycle it has the same gap as `McGraphVisitors.McDfsContents`. The getters may then return a default B record in the source.
- McGraph.McBuildShape: requires a well-formed MC event: the three per-particle arrays have equal length, and every daughter range lies inside the particle list. The source reads these buffers without checking them.
- TruthMatch.Contract: cleaving a vertex that is absent from the graph, or that has a self-loop, aborts. The source's behaviour there is undefined: it dereferences an end iterator, or adds edges to the list it is iterating.
- TruthMatch.TruthMatchesOk: the whole truth-matcher (`TmFinish`, `TruthMatches` and the lemmas about them) requires every composite reco vertex to have daughters. Without daughters the source reads the first element of an empty vector, which is undefined behaviour.
- TruthMatch.CompositeMatchSpec: states the match only for composites with at least one daughter, for the same reason.
- TmManager.TruthMatchManager.MatchCompositeState: requires a composite with daughters, for the same reason; so do `TmManager.TruthMatchManager.CompositeMatchOf` and `TmManager.TruthMatchManager.AnalyzeGraph`.
- Catalogue.McRowsNotOverridden: proved for the two rows used in the worked examples, not as full distinctness of every B_MC catalogue word.
- No idempotence property is stated for contraction, because it does not hold: a second contraction can remove further vertices (`TruthMatch.ContractNotIdempotent`, see below).

## Quirks kept as written

These behaviours are modelled exactly as the source has them, and each is stated by a lemma.

- The D± → K_S K row lists its daughters in unsorted order, so its word is never built and it can never be found (`Catalogue.DcKsKUnreachable`).
- In the reco lepton classifier, an electron takes the muon branch and is labelled τ→μ (`RecoGraphVisitors.LeptonRecOf`).
- The MC τ classifier keys on the first e or μ daughter it meets (`McGraphVisitors.TauScanFirstLepton`).
- The MC Υ(4S) record starts out B B̄, and the code path that would store "not B B̄" is never taken (`McGraphVisitors.McYOfIsBBbar`).
- The finish dispatch of the truth matcher tests `abs(lund)`, while the composite search compares signed codes. So a composite matches only an MC vertex with the same sign (`TruthMatch.CompositeMatchSpec`).
- The cleave test looks at a particle's mother, and cleaving gives particles new mothers. So one contraction need not reach a fixed point. Example: a π0 from a K± decay is cleaved because its mother is a final-state particle. Its photons were kept, since their mother was a π0, but now their mother is the K±, and a second contraction would cleave them (`TruthMatch.ContractNotIdempotent`).
