# Verified models of the momwire derivation and bench scripts

momwire is a method-of-moments solver for thin wires. Its `scripts/` directory holds the derivations behind the
kernels, the harness that times the NEC portal, and the generators of its tables and fixtures. The scripts check
their own claims at a few orders or on a few inputs; the Dafny modules here state the same claims for every order,
every geometry, every input and every interleaving, and prove them. `dafny verify dfyconfig.toml` checks the whole
project.

**Analysis.** `Calculus` defines limits and derivatives on exact reals (a derivative is Caratheodory's: the
difference quotient, completed at the point, is continuous there) and proves the sum, product, chain, reciprocal and
root rules and uniqueness. `Terms` is a language of expressions with textbook formal differentiation `Der`; `Sound`
ties it to analysis along any curve, so every result about a formal derivative is a result about the function. Of
sqrt, sin, cos and asinh only `Lawful` is assumed: a positive square root and the three derivative rules. `MeanValue`
proves that a derivative determines differences, so that a stated antiderivative is the definite integral; completeness
of the reals, which the verifier does not know, is there a named hypothesis `Complete`.
`Substitution` and `ComplexTerms` add the chain rule for substitution and complex arithmetic; e^{-jx} is the pair
(cos x, -sin x).

**The extended-kernel delta** (`BesselPolynomials`, `DeltaKernel`, `DeltaOperators`, `Transcription`,
`FieldOperators`, `ChainRules`, `Antiderivatives`, `FieldIntegrals`). The reverse Bessel polynomials, the n-th
derivative of e^{-jk sqrt u}/sqrt u for every n, the two operator brackets for every kernel g(u), the step-by-step
transcription, NEC Equation 89, and the table of closed forms that integrate the field operators along the source.

**Static moments** (`EkMoments`). The closed form obtained by parts is the double integral of the correction for
every p and q, and the exact reach of the index slip recorded in the script's documentation.

**The half-razor study** (`ShapeMoments`, `TaylorShapes`, `NodeTable`, `NodeDifferences`). The moments of
u^p/sqrt(u^2+b^2), the Taylor coefficients of the shapes, the node table, and the cancellation of tested potentials
around loops.

**The portal harness** (`Cards`, `DeckUnits`, `Sequences`, `Shim`, `Capture`, `Crew`, `Resident`, `Portal`).
Concurrent programs are state machines whose steps are the reads and writes of shared state; results hold for every
run. The classes `Crew.Member` and `NodeTable.Table` and `DirectGrid.Grid` keep the scripts' mutable objects.

**Tables, quadrature and text** (`Broadcast`, `DirectGrid`, `Tents`, `Stencil`, `TokenText`, `LegTable`, `Printouts`).
A memoised grid over broadcast arrays, tent bases and their mass matrix, the clipped bicubic stencil, the packed
Gauss-Legendre tables, and the printout masks.

Where the code and its own comments disagree the model follows the code:

- `_to_portal_dialect` says it terminates the deck with `NX`; it appends `XQ`, and the `NX` is added by
  `build_corpus`. Its comment names `RP` as dropped; `RP` is among the cards it keeps.
- `mask_version` promises that the version is masked; one not masked already is, exactly when single blanks stand on
  both sides of it, unless it is the engine's own name and blanks stand on both sides of the engine name, which is
  then masked instead (`Printouts.VersionMaskedExactlyWhenBlanks`). A stamp is printed with a blank in front, so a
  version called like the engine stays unmasked and a second masking raises (`Printouts.PrintedStamp`,
  `Printouts.EngineMaskedIsRefused`); a tab before the version hides it (`Printouts.TabHidesTheVersion`).
- The shim pairs each sentinel with its deck only until the child answers faster than the record is enqueued
  (`Shim.PlaceholderHappens`) or skips one (`Shim.SkippedAnswerHappens`, which the replay loader accepts,
  `Capture.AcceptedWithForeignTime`); what holds instead, and exactly when, is `Shim.PairingInEveryRun` and
  `Shim.RowIsItsOwnDeck`.
- `capture` collects results by name; its manifest is independent of the completion order exactly when jobs sharing a
  name share their outcome (`Portal.ManifestIgnoresOrder`), which the distinct names of the corpus guarantee.

## Model

| member | source | states |
|---|---|---|
| BesselPolynomials.BesselPoly | scripts/derive_galerkin_ek_delta.py:170-177 | the loop returns the n-th reverse Bessel polynomial for every n |
| BesselPolynomials.StepLaw | scripts/derive_galerkin_ek_delta.py:170-177 | the recursion coefficient by coefficient, for all orders and places |
| BesselPolynomials.Shape | scripts/derive_galerkin_ek_delta.py:170-177 | for every n: degree n, leading coefficient 1, constant term (2n-1)!! |
| BesselPolynomials.Recurrence | scripts/derive_galerkin_ek_delta.py:170-177 | for every n the derivative-free recurrence A_{n+2} = (2n+3) A_{n+1} + x^2 A_n |
| BesselPolynomials.Literals | scripts/derive_galerkin_ek_delta.py:238-245 | the four polynomials spelled out by the transcription are A_1, ..., A_4 |
| Terms.Sound | scripts/derive_galerkin_ek_delta.py:90-105 | formal differentiation computes the derivative of the denoted function along every curve through the symbols |
| MeanValue.SameDifferences | scripts/derive_galerkin_ek_delta.py:124-132 | functions with the same derivative everywhere have the same differences: an antiderivative gives the definite integral |
| DeltaKernel.UDerivatives | scripts/derive_galerkin_ek_delta.py:165-188 | for every n, k and u > 0: n formal derivatives of e^{-jk sqrt u}/sqrt u equal (-1/2)^n e^{-jkR} A_n(jkR)/R^{2n+1} |
| DeltaOperators.OperatorZ | scripts/derive_galerkin_ek_delta.py:203-222 | (k^2 + d^2/dz^2) W equals its bracket in g', ..., g'''', for every smooth kernel g(u), everywhere but at R = 0 |
| DeltaOperators.OperatorRho | scripts/derive_galerkin_ek_delta.py:203-223 | d^2 W/d rho dz equals its bracket, for every smooth kernel g(u), everywhere but at R = 0 |
| Transcription.StepsAreDerivatives | scripts/derive_galerkin_ek_delta.py:232-251 | the named steps g1, ..., g4 are the first four u-derivatives of the kernel |
| Transcription.TranscriptionCorrect | scripts/derive_galerkin_ek_delta.py:232-258 | the step-by-step code computes both operators on W exactly, at every chart point |
| Transcription.Collapse | scripts/derive_galerkin_ek_delta.py:256-258 | at a = 0 both results are exactly zero |
| Transcription.AgreesWithEq89 | scripts/derive_galerkin_ek_delta.py:191-200 | W at rho = a is the factor form of NEC Equation 89 |
| FieldOperators.DXiIsTotal | scripts/derive_galerkin_ek_delta.py:90-95 | d_dxi is the total derivative with zeta moving at -1 and R at -zeta/R |
| FieldOperators.DXiSound | scripts/derive_galerkin_ek_delta.py:90-95 | d_dxi of any expression is its derivative along the source at fixed rho and z |
| ChainRules.ChainsCorrect | scripts/derive_galerkin_ek_delta.py:98-105 | chain_z2 and chain_rho_z are the second derivatives of f(R) in space, for every f |
| Antiderivatives.ConstZCorrect | scripts/derive_galerkin_ek_delta.py:135-159 | constant shape, axial field: d/d xi of the entry is the integrand less k^2 G |
| Antiderivatives.ConstRhoCorrect | scripts/derive_galerkin_ek_delta.py:135-159 | constant shape, radial field: d/d xi of the entry is the integrand |
| Antiderivatives.SinZCorrect | scripts/derive_galerkin_ek_delta.py:135-159 | sine shape, axial field: d/d xi of the entry is the integrand |
| Antiderivatives.SinRhoCorrect | scripts/derive_galerkin_ek_delta.py:135-159 | sine shape, radial field: d/d xi of the entry is the integrand |
| FieldIntegrals.EntriesIntegrateAlongSource | scripts/derive_galerkin_ek_delta.py:117-159 | as functions of the source position all four entries are antiderivatives of their field integrands, off the axis |
| FieldIntegrals.EntryIsTheIntegral | scripts/derive_galerkin_ek_delta.py:117-159 | the bracket of an entry's values at two source positions is the definite integral of its integrand between them |
| EkMoments.SecondDerivativeOfH | scripts/derive_bspline_static_moments.py:31-32 | two formal derivatives of H(s - t) = -a^2/(4R) in t are the correction kernel, at every pair and offset |
| EkMoments.DiffBoundary | scripts/derive_bspline_static_moments.py:31-42 | the by-parts step: differentiating the boundary term leaves Q H'' and Q'' H, the Q' H' terms cancelling, for every q |
| EkMoments.EkMoment | scripts/derive_bspline_static_moments.py:211-232 | for every p, q and geometry the emitted bracket, with the moment of index q-2 reused, is the double integral of the correction kernel |
| EkMoments.MomentIsUnique | scripts/derive_bspline_static_moments.py:23-24 | on the complete line those laws determine the double integral of either kernel |
| EkMoments.EkMomentValue | scripts/derive_bspline_static_moments.py:31-42 | so the closed form is the value of the double integral of the correction at every pair of endpoints |
| EkMoments.IndexZero | scripts/derive_bspline_static_moments.py:48-56 | reusing index 0 instead is right if and only if q <= 2 |
| ShapeMoments.Moments | scripts/loop_pathology_half_razor.py:58-64 | the list built by the loop is the recurrence, for every length including the two seeds |
| ShapeMoments.OddIsAlgebraic | scripts/loop_pathology_half_razor.py:58-64 | entries of odd order do not depend on asinh |
| ShapeMoments.MomentsAreAntiderivatives | scripts/loop_pathology_half_razor.py:58-64 | for every p, u and b > 0 entry p has the derivative u^p/sqrt(u^2+b^2) |
| ShapeMoments.EvalMoment | scripts/loop_pathology_half_razor.py:58-64 | the differentiated expressions denote exactly the entries the loop computes |
| ShapeMoments.SingularPart | scripts/loop_pathology_half_razor.py:137-141 | the accumulated sum is the difference of the weighted lists at the two limits |
| ShapeMoments.SingularPartIntegrates | scripts/loop_pathology_half_razor.py:137-141 | the weighted list is the value of one function whose derivative is the Taylor polynomial over the root |
| ShapeMoments.SingularPartIsTheIntegral | scripts/loop_pathology_half_razor.py:137-141 | the difference of the weighted lists is the definite integral: every function with that integrand for its derivative changes by it |
| TaylorShapes.TaylorCoeffs | scripts/loop_pathology_half_razor.py:67-95 | raises exactly for a name other than the six; for each of the six, p! times the p-th entry is the p-th derivative of the expression the name stands for |
| TaylorShapes.CoefficientsAreDerivatives | scripts/loop_pathology_half_razor.py:67-95 | for every kind, order and point, p! times the p-th coefficient is the p-th derivative of the shape there |
| TaylorShapes.TermByTerm | scripts/loop_pathology_half_razor.py:67-95 | (p+1) sin[p+1] = dsin[p], (p+1) cos1[p+1] = dcos[p], and both in terms of k times the other list |
| TaylorShapes.Pythagoras | scripts/loop_pathology_half_razor.py:78-85 | the Cauchy product of sin with itself plus cos with itself is s^2+c^2 at order 0 and 0 at every later order |
| NodeTable.RoundHalfEven | scripts/loop_pathology_half_razor.py:187 | rounding errs by at most one half and breaks ties to the even integer |
| NodeTable.Table.Nid | scripts/loop_pathology_half_razor.py:184-191 | looks a point up by its rounded key, adding it at the end when new, and keeps the table valid |
| NodeTable.Table.NumberAll | scripts/loop_pathology_half_razor.py:193-194 | the ids of a list of points refer to the final table and never change later |
| NodeTable.BuildNodes | scripts/loop_pathology_half_razor.py:193-195 | left and right ids are those of the one table of all ends: equal ends share an id, ends sharing one agree to a nanometre in x, y and z, every node is used and stands at its ends to a nanometre |
| NodeTable.EveryPointHasItsNode | scripts/loop_pathology_half_razor.py:184-195 | one node per rounded key, and an id for every end |
| NodeTable.EveryNodeIsAFirstPoint | scripts/loop_pathology_half_razor.py:184-195 | ids are contiguous: every node is the first end of its key |
| NodeTable.SameIdSameCell | scripts/loop_pathology_half_razor.py:186-191 | two ends share an id exactly when x, y and z each round to the same multiple of a nanometre |
| NodeTable.FoundIdsFit | scripts/loop_pathology_half_razor.py:184-195 | the laws of the ids in coordinates, for every list of ends |
| NodeTable.RoundAlike | scripts/loop_pathology_half_razor.py:187 | numbers that round alike on the nanometre grid differ by at most a nanometre |
| NodeDifferences.Accumulate | scripts/loop_pathology_half_razor.py:212-219 | over any channels, every matrix entry is its vector part less the accumulated potential at the segment's right node minus that at its left node |
| NodeDifferences.EntryStep | scripts/loop_pathology_half_razor.py:217 | one channel's matrix product adds its vector part less its own node difference to an entry |
| NodeDifferences.DotOfOne | scripts/loop_pathology_half_razor.py:218 | a row of one entry times a matrix is that row of the matrix, scaled |
| NodeDifferences.UnitCurrents | scripts/loop_pathology_half_razor.py:218-219 | with one channel and unit currents the vector part and the nodal potentials are the entries of the channel's tables |
| NodeDifferences.ClosedWalk | scripts/loop_pathology_half_razor.py:217 | around a closed walk of segments the tested potentials cancel for every potential |
| NodeDifferences.CancelsExactlyWhenBalanced | scripts/loop_pathology_half_razor.py:217 | a list of passes cancels for every potential if and only if it enters each node as often as it leaves it |
| NodeDifferences.LoopHasNoPotential | scripts/loop_pathology_half_razor.py:184-217 | a loop closed in space to the rounding, in any mix of directions, has no net tested potential |
| NodeDifferences.LoopKeepsVectorPart | scripts/loop_pathology_half_razor.py:184-219 | for all segments, channels, columns and loops closed in space, the rows summed along the loop are the summed vector parts |
| NodeDifferences.BuildHalfRazor | scripts/loop_pathology_half_razor.py:184-219 | the builder: ids with the coordinate laws above, entries as differences of potentials at the ends' nodes, and the loop law for the matrix it returns |
| DeckUnits.Split | scripts/bench_portal_e2e.py:80-93 | the loop returns the NX-terminated units, or raises exactly when a non-blank line follows the last NX |
| DeckUnits.AcceptedFile | scripts/bench_portal_e2e.py:80-93 | the units of an accepted file concatenate to its lines up to the trailing blank ones, each with its only NX last |
| DeckUnits.ResplitIsIdentity | scripts/bench_portal_e2e.py:80-93 | splitting the concatenated units gives the same units |
| DeckUnits.StreamAgrees | scripts/portal_bench_shim.py:66-91 | the shim's streaming splitter cuts the concatenated units exactly where they were joined |
| DeckUnits.StreamLosesNothing | scripts/portal_bench_shim.py:66-91 | the streamed decks and the unfinished rest are the input text, character for character |
| Cards.TerminatedSplit | scripts/bench_portal_e2e.py:84-87 | rejoining the lines of a text broken by newlines only gives the text back, with a final newline |
| Cards.CardIsFirstWord | scripts/portal_bench_shim.py:69 | the card of a line is its first word in capitals, whatever white space surrounds it |
| Cards.NXInAnyCase | scripts/portal_bench_shim.py:69-75 | a line ends a unit exactly when its first word is NX in any case |
| Cards.StripLaws | scripts/portal_bench_shim.py:71-74 | stripping takes all white space off both ends and nothing else |
| Shim.RunKeepsInv | scripts/portal_bench_shim.py:60-122 | every interleaving of pump, child and reader keeps the pairing invariant |
| Shim.PairingInEveryRun | scripts/portal_bench_shim.py:74-122 | at most one placeholder: before it the m-th sentinel carries the m-th deck, after it every row lags by exactly one; records describe their unit and arrive before they finish |
| Shim.RowsCarryTheirClocks | scripts/portal_bench_shim.py:74-122 | in every run row i carries the clock of the step that read its sentinel, placeholder or not, and its record that of the earlier step that enqueued it |
| Shim.RecordHoldsItsUnit | scripts/portal_bench_shim.py:66-91 | in every run a record holds its unit's text, its geometry lines stripped and in order with their number, and its last FR line stripped |
| Shim.GeometryInOrder | scripts/portal_bench_shim.py:70-72 | the geometry kept is the lines with a geometry card, each once, in order, stripped |
| Shim.LastFrequency | scripts/portal_bench_shim.py:73-74 | the frequency kept is the last FR line of the unit, stripped, or nothing |
| Shim.RowIsItsOwnDeck | scripts/portal_bench_shim.py:101-122 | a row's record is the deck its sentinel answered if and only if no placeholder came before and the engine skipped none |
| Shim.EmptyQueue | scripts/portal_bench_shim.py:111-114 | a sentinel finds no record only while a delivered unit is not yet enqueued, and only once |
| Shim.PlaceholderHappens | scripts/portal_bench_shim.py:74-114 | a run on one NX line in which the sentinel overtakes its record |
| Shim.SkippedAnswerHappens | scripts/portal_bench_shim.py:74-122 | a run on two NX lines in which the first record is paired with the answer to the second |
| Capture.LoadStream | scripts/bench_portal_replay.py:52-69 | refuses exactly an empty capture or one with a row without deck, and otherwise returns the sorted rows with their offsets |
| Capture.MissingCounts | scripts/bench_portal_replay.py:52-69 | the number reported is that of the rows without a deck |
| Capture.RowsInFileOrder | scripts/bench_portal_replay.py:52-69 | the rows of each file stand together, in the order of the files |
| Capture.StableSort | scripts/bench_portal_replay.py:65 | the stream is ascending, a permutation of the rows, and keeps ties in order |
| Capture.AcceptedRowsOwnTheirDecks | scripts/bench_portal_replay.py:52-69 | in an accepted capture row i of every session is its i-th deck, finished by its own sentinel if and only if the engine skipped none |
| Capture.AcceptedWithForeignTime | scripts/bench_portal_replay.py:52-69 | an accepted capture whose first deck carries the finish time of the second |
| Capture.OneSessionKeepsItsOrder | scripts/bench_portal_replay.py:65 | a single accepted session is replayed in the order its decks were sent |
| Crew.Member.constructor | scripts/bench_portal_replay.py:85-87 | a new member is idle with nothing done |
| Crew.Member.Dispatch | scripts/bench_portal_replay.py:105-109 | the locked part of a dispatch: busy, the record current with the time given, what is done unchanged |
| Crew.Member.OnSentinel | scripts/bench_portal_replay.py:92-103 | the locked part of the reader: the current record, if any, filed last with both its times, nothing current, not busy |
| Crew.RunKeepsInv | scripts/bench_portal_replay.py:196-228 | every interleaving of the unlocked scans, dispatches, writes, readers and drain keeps the crew invariant |
| Crew.ExactlyOnePlace | scripts/bench_portal_replay.py:196-228 | at every moment each record is in exactly one of waiting, in flight and done |
| Crew.EveryMember | scripts/bench_portal_replay.py:90-112 | busy exactly when a record is current; records finish in stream order, one at a time, each by its own deck's sentinel |
| Crew.RecordsCarryTheirClocks | scripts/bench_portal_replay.py:92-109 | in every run a record at a member carries the clock of the step that dispatched it there, and a finished one that of the later step that filed it |
| Crew.FirstIdleIsChosen | scripts/bench_portal_replay.py:206-214 | a record goes to the first member that one pass over the flags finds idle, the pass having found every earlier one busy |
| Crew.ReplayCanFinish | scripts/bench_portal_replay.py:196-220 | every crew of at least one member can replay every stream to the end of the drain |
| Crew.SeenIdleStaysIdle | scripts/bench_portal_replay.py:207-214 | a member seen idle without the lock is still idle when the dispatcher uses it |
| Crew.DrainedMeansDone | scripts/bench_portal_replay.py:219-220 | the drain loop is left only when every record is done exactly once at exactly one member |
| Resident.Solve | scripts/bench_portal_e2e.py:118-135 | a solve consumes the queue up to the first sentinel, end or timeout; it died at an end, timed out at nothing, and otherwise answers the sentinel's job, flagged exactly when an error line came before |
| Resident.TakesItsOwn | scripts/bench_portal_e2e.py:118-135 | the sentinel a solve takes answers the unit it sent |
| Resident.NoForeignSentinel | scripts/bench_portal_e2e.py:146-174 | in every run with deaths, timeouts and respawns no job takes another job's sentinel |
| Resident.SolveEnds | scripts/bench_portal_e2e.py:118-135 | in every run a solve that ends took the next sentinel, flagged exactly when an error line stands between the sentinel before and it, or its engine closed, or it waited in vain |
| DirectGrid.Grid.constructor | scripts/probe_grazing_ground_path.py:582-592 | a new grid has an empty cache and zero counters |
| DirectGrid.Grid.Eval | scripts/probe_grazing_ground_path.py:594-622 | for operands of any shapes: one array a surface, each of the broadcast shape; at each place the direct values at the radius and the angle, brought into [0, pi/2], of the entries that lie under it, for equal shapes the entries of that place; the cache stays right and only grows; incompatible shapes raise and change nothing |
| DirectGrid.QueriesAnswer | scripts/probe_grazing_ground_path.py:600-622 | the queries of a call read, at every place, the entries that lie under it, clipped |
| Broadcast.CommonStretches | scripts/probe_grazing_ground_path.py:595-597 | a common shape exists exactly when the axes, aligned at the last, are pairwise equal or of length one, and it stretches both operands |
| Broadcast.CommonAxes | scripts/probe_grazing_ground_path.py:595-597 | the common shape has the longer rank, and on each axis the length of the operand that is not of length one there |
| Broadcast.UnderIsSource | scripts/probe_grazing_ground_path.py:595-599 | the entry read is the only one whose index agrees on every aligned axis, or is 0 where the operand has length one |
| Broadcast.SourceInBounds | scripts/probe_grazing_ground_path.py:595-599 | every place of the broadcast array reads an existing entry of the operand |
| Broadcast.SourceOfSame | scripts/probe_grazing_ground_path.py:595-599 | an operand that needs no stretching is read in place |
| DirectGrid.Grid.Store | scripts/probe_contact_direct_remainder.py:145-160 | the batch of missing keys is evaluated and entered once each, and counted |
| DirectGrid.Grid.CountersAreExact | scripts/probe_grazing_ground_path.py:601-605 | over any history calls counts the queries and misses the distinct keys |
| DirectGrid.FreshLaws | scripts/probe_grazing_ground_path.py:602-603 | the missing keys are those asked and not cached, each once, in ascending order |
| DirectGrid.Grid.ClippedAgain | scripts/probe_grazing_ground_path.py:600-604 | asking again with the angles already clipped asks the same keys and evaluates nothing |
| DirectGrid.SharedEntry | scripts/probe_grazing_ground_path.py:600-602 | two angles ask for the same cache entry exactly when they are equal or lie at or beyond the same bound |
| Tents.PartitionOfUnity | scripts/bspline_probe.py:23-38 | all tents sum to 1 on the whole wire, for every number of segments |
| Tents.OnlyInteriorTentsVanish | scripts/bspline_probe.py:33-38 | a tent vanishes at both ends if and only if it is an interior one |
| Tents.WeightsSumToLength | scripts/bspline_probe.py:54-69 | mapped weights sum to the length, for any segments |
| Tents.EntryOfSegment | scripts/bspline_probe.py:54-69 | entry s n + i is node i of the rule carried onto segment s, with its weight times half the segment's length |
| Tents.MassMatrix | scripts/bspline_probe.py:154-170 | for every rule exact to degree 2 the quadrature mass matrix is 2h/3, h/6 and 0 (h/3 at the boundary tents) |
| Stencil.StencilInBounds | scratch/probe838_r1_cap.py:69-70 | the clipped stencil lies inside the lattice if and only if it has at least four nodes |
| Stencil.StencilPlacement | scratch/probe838_grazing_band.py:56 | where the stencil stands: around the query inside, stopped at the edges |
| Stencil.InterpExact | scratch/probe838_grazing_band.py:52-59 | interpolation reproduces every cubic at every query, off centre and beyond the ends included |
| Stencil.InterpAtNode | scratch/probe838_grazing_band.py:52-59 | at a node the stored value is returned, whatever the data |
| Stencil.BicubicExact | scratch/probe838_r1_cap.py:66-74 | the tensor product reproduces every polynomial of degree at most 3 in each variable |
| Stencil.BicubicAtNode | scratch/probe838_r1_cap.py:66-74 | at a lattice point the stored value is returned, whatever the data |
| Stencil.BicubicLocal | scratch/probe838_r1_cap.py:66-74 | only the 4 x 4 block around the query, or at the edge it lies near, is read |
| TokenText.PrintRows | scripts/gen_leggauss_header.py:74-80 | the row loop prints the values row after row |
| TokenText.RowAt | scripts/gen_leggauss_header.py:74-80 | row r holds the values from r times the width on, as many as the width or all that are left |
| TokenText.RowsRoundTrip | scripts/gen_leggauss_header.py:74-80 | reading the printed rows back gives the values, for every length and width |
| TokenText.ItemsRoundTrip | scripts/gen_leggauss_header.py:74-80 | read as a C initialiser, a printed array has one item a value, each closed by its own comma |
| TokenText.NumbersRoundTrip | scripts/gen_leggauss_header.py:73-76 | a printed array of offsets reads back number by number, for every length and width |
| TokenText.DecimalRoundTrip | scripts/gen_leggauss_header.py:76 | a printed number is one token and parses to itself |
| TokenText.WordsRoundTrip | scripts/gen_leggauss_table.py:86-87 | tokens joined by blanks are split back into themselves |
| LegTable.Pack | scripts/gen_leggauss_header.py:44-72 | succeeds exactly on a complete table of right-sized halves and packs it |
| LegTable.PackedStep | scripts/gen_leggauss_header.py:63-72 | appending a rule keeps every earlier slice and OFFSET[n] = floor((n+1)^2/4) |
| LegTable.HeaderHoldsTheTable | scripts/gen_leggauss_header.py:63-82 | reading the three printed arrays as initialisers and slicing nodes and weights at the printed offsets returns each rule's own tokens |
| LegTable.MirrorRestores | scripts/gen_leggauss_table.py:52-64 | mirroring the upper half restores a rule if and only if its nodes are antisymmetric and its weights symmetric off the middle |
| LegTable.HalfOfMirror | scripts/gen_leggauss_table.py:52-64 | halving a mirrored rule returns the half |
| LegTable.OddPowersCancel | scripts/gen_leggauss_table.py:52-64 | a mirrored rule sums every odd power to what its middle node contributes: 0 when that node is 0 |
| Printouts.MaskTouchesStampLinesOnly | scripts/golden_printouts.py:281-291 | masking keeps the number of lines and every line but the stamp's |
| Printouts.RefusedExactly | scripts/golden_printouts.py:281-319 | which printouts the two masks refuse: no second line, or a second line that does not name the basis in its place |
| Printouts.VersionMaskedExactlyWhenBlanks | scripts/golden_printouts.py:286-290 | for every stamp, leading white space included: the version, and nothing else, is masked if and only if it was masked already or single blanks surround it and the engine name cannot be taken for it; what is masked in that case is the engine name |
| Printouts.PrintedStamp | src/momwire/dropin/nec5/_printout.py:132 | a stamp as the engine prints it has its version masked, unless the version is the engine name |
| Printouts.EngineMaskedIsRefused | scripts/golden_printouts.py:281-291 | a stamp whose engine name was masked is refused afterwards |
| Printouts.TabHidesTheVersion | scripts/golden_printouts.py:286-290 | accepted stamps whose version is not masked |
| Printouts.VersionsMaskAlike | scripts/golden_printouts.py:281-291 | printouts differing only in the version of their stamps mask to the same text if and only if in neither the engine name is taken for the version |
| Printouts.StampsMaskAlike | scripts/golden_printouts.py:309-319 | with the whole stamp masked, printouts differing only in their stamps become equal |
| Printouts.MaskIsIdempotent | scripts/golden_printouts.py:281-291 | masking twice is masking once if and only if the engine name was not taken for the version; otherwise the second masking raises |
| Portal.ToPortal | scripts/nec_portal_capture.py:1177-1191 | the lines written are the portal lines of the deck, stripped on the right, each once and in order, followed by XQ exactly when none of them is an XQ card |
| Portal.KeptInOrder | scripts/nec_portal_capture.py:1179-1188 | the kept lines are the portal lines of the deck, each once, in order, stripped on the right |
| Portal.PortalIsIdempotent | scripts/nec_portal_capture.py:1177-1191 | converting twice is converting once |
| Portal.CorpusDeckIsOneUnit | scripts/nec_portal_capture.py:1262-1274 | a converted deck with its NX line is exactly one unit of the resident protocol |
| Portal.Capture | scripts/nec_portal_capture.py:1378-1399 | the manifest lists the corpus in order with the results collected by name; each job has its own outcome when jobs sharing a name share theirs |
| Portal.ManifestIgnoresOrder | scripts/nec_portal_capture.py:1378-1399 | the manifest is the same for every completion order if and only if jobs sharing a name share their outcome |

## Left out

- Everything under `src/momwire`: solvers, grids and accelerators are not part of this model. The four-point weights
  of the grid are taken from the scripts' description, four-point Lagrange along a uniform coordinate, and direct
  surface evaluation is an arbitrary pointwise function.
- Floating point: all arithmetic is over exact reals and unbounded integers; NaN, signed zero, overflow of the 64-bit
  node keys, hex-float decoding and the numeric comparison against 40 digits are not modelled.
- sympy and numpy internals: antiderivatives are stated by their derivatives, tents by the degree-1 formula on the
  clamped knots, a quadrature rule by its moment conditions.
- EkMoment: a double integral is what has the integrand for its mixed derivative and vanishes on empty intervals,
  which determines it (`MomentIsUnique`); that the reused moment and the two boundary antiderivatives exist is a
  hypothesis.
- Complete: the least-upper-bound property of the reals is a hypothesis of the uniqueness results, because the
  verifier's theory of the reals does not contain it.
- ConstZCorrect: the table of field integrals is stated off the axis, rho > 0, as the script declares its symbols.
- The smooth part of the shape integrals by 48-point quadrature, the near/far switch, the endpoint charges of the
  potential tables and the matrix solve: numerical evaluation and calls into the solver.
- BuildHalfRazor: the channels, which the script tabulates at the nodes it has numbered, are a parameter of fitting
  size.
- VersionsMaskAlike: for versions between single blanks, as printed; with other white space the search may match a
  later field.
- MaskIsIdempotent: the same.
- Time: clocks do not run backwards, and times are integers; the rounded millisecond figures are not modelled. Hashes
  are the hashed text itself.
- The engine is any process that answers each NX at most once and in order; that real engines do so is the portal's
  contract, not proved here. Sentinel and error lines are recognised by kind, not by regular expression.
- Process start and exit, pipes filling up, signals, memory sampling, progress printing and JSON writing.
- The timeout of the replay may fire at the end of any scan that found every member busy; its length is not modelled.
- The patching and restoring of module globals around a direct-grid run: short and straight-line.
- `canonicalize_timings`, the banner search, the fixture hashes and the corpus texts themselves.
- str.upper and white space follow the characters that can affect a card; other Unicode case rules do not change one.
- Richardson fits, summaries, capability tables, plots, catalogue exports and the NEC-5 capture scripts: plumbing or
  easy members.
