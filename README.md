# Soaisu ring checks in Dafny

A 6-6 soaisu ring is a pair of sets of six integers S1 and S2 with two
properties. First, their power sums of degrees 1..5 agree. Second, each set
can be written round a hexagon so that the two hexagons agree on several
sums: the cyclic product sums of degrees 1..5, the diagonal product sum
`a0*a3 + a1*a4 + a2*a5`, and the regular-triangle product sum
`a0*a2*a4 + a1*a3*a5`. The ring also carries an embedded 3-3 ring. For that,
the inscribed triangle at positions 0, 2, 4 of the first hexagon is compared
with the triangle at positions 1, 3, 5 of the second, on power sums and
cyclic product sums of degrees 1..2.

Two programs are modelled here:

- the validator, which checks two sets stage by stage over every pair of
  hexagon arrangements, one arrangement per rotation/reflection class;
- the algebraic verifier, which replaces each base value `v` by `v*n + m`
  and re-checks every condition as an identity in `n` and `m`.

All arithmetic is on unbounded integers, as with Python's `int`.

Files:

- `arrangement.dfy` (module `Arrangement`):
  - rotation `p[i:] + p[:i]` and reversal `p[::-1]` as sequence functions;
  - the remainder facts the index arithmetic needs;
  - how rotations compose, and how they combine with reversal;
  - `itertools.permutations` as a function that produces every ordering of
    the entries and nothing else.
- `invariants.dfy` (module `Invariants`):
  - specification functions for power sums, windowed cyclic product sums,
    and the diagonal and triangle product sums;
  - the loops that compute them (`calculate_power_sums` fills an array;
    `cyclic_product_sum` uses nested accumulation loops), each proved
    against its specification;
  - the edge cases of these functions (see the table).
- `symmetry.dfy` (module `Symmetry`):
  - the cyclic, diagonal and triangle product sums do not change under any
    rotation or the reversal;
  - power sums do not depend on the order of the entries.
- `dedup.dfy` (module `Dedup`):
  - Python's tuple order and `min`;
  - the twelve equivalent arrangements of a hexagon and their
    representative (the smallest of them);
  - the deduplication loop that collects representatives in a set and
    returns it as a list.
- `matcher.dfy` (module `Matcher`): the decision logic of `main_program` as
  a method `MatchRings`. Its result is:
  - `NotSoaisu` when the power-sum stage fails;
  - otherwise `Checked(candidates, rings)`: the candidate pairs that pass
    steps 2 to 4, and the pairs that also pass steps 5 and 6.
- `algebraic.dfy` (module `Algebraic`): the affine lift, and the verifier's
  loops evaluated at one integer point `(n, m)`.
  - The symbolic result is the ghost predicate `HoldsForAllNM`: every
    comparison holds at every integer point. This is what the symbolic
    identity test decides, because two polynomials with integer
    coefficients are equal exactly when they agree at every integer point.
  - The model relates that predicate back to the validator.
- `expansion.dfy` (module `Expansion`): each compared quantity of the lifted
  lists written as a polynomial in `n` and `m`, with coefficients computed
  from the base values. Equal coefficient lists give `HoldsForAllNM`.
- `identity.dfy` (module `SampleIdentity`): the coefficient lists of the
  sample pair worked out entry by entry, giving `HoldsForAllNM` for it.
- `samples.dfy` (module `Samples`): the sample rings offered by the prompts
  of both programs, followed end to end through `MatchRings`, plus a pair
  of sets that fails the power-sum stage.

## Model

| member | source | states |
|---|---|---|
| Invariants.CalculatePowerSums | soaisu_ring_validator.py:7-15 | the returned tuple is `PowerSums(s, maxPower)`: `maxPower + 1` entries (none for a negative degree), entry `p` the sum of `x ** p` over the list |
| Invariants.PowerSumsStartWithLength | soaisu_ring_validator.py:11-14 | entry 0 of every power-sum tuple is the length of the list, since `x ** 0` is 1 even for `x = 0` |
| Invariants.PowerSumDegreeZero | soaisu_ring_validator.py:12-14 | the degree-0 power sum counts the entries |
| Invariants.CyclicProductSum | soaisu_ring_validator.py:17-36 | the result is `CyclicSum(sequence, m)`: the sum over every start position of the product of the `m` entries read from there with `% n` wrap-around; 0 for an empty sequence whatever `m` is |
| Invariants.CyclicSumDegreeZero | soaisu_ring_validator.py:28-29 | degree 0 on a non-empty sequence gives its length |
| Invariants.CyclicSumDegreeOne | soaisu_ring_validator.py:30-35 | degree 1 gives the plain sum of the entries |
| Symmetry.CyclicSumFullTurn | soaisu_ring_validator.py:30-35 | a window one full turn longer multiplies every window product by the product of all entries, so degree `m + n` gives `Product(s)` times degree `m` |
| Invariants.CyclicSumWrapsAround | soaisu_ring_validator.py:33-34 | a degree larger than the length wraps round more than once: `[2, 3]` at degree 3 gives `2*3*2 + 3*2*3` |
| Invariants.DiagonalProductSum | soaisu_ring_validator.py:38-45 | `None` exactly when the length is not 6, otherwise `a0*a3 + a1*a4 + a2*a5` |
| Invariants.RegularTriangleProductSum | soaisu_ring_validator.py:47-54 | `None` exactly when the length is not 6, otherwise `a0*a2*a4 + a1*a3*a5` |
| Symmetry.CyclicSumRotate | soaisu_ring_validator.py:30-35 | every cyclic product sum of a rotation equals that of the original |
| Symmetry.CyclicSumReverse | soaisu_ring_validator.py:30-35 | every cyclic product sum of the reversal equals that of the original |
| Symmetry.WindowsReverse | soaisu_ring_validator.py:30-35 | the windows of the reversal are the windows of the original, rotated by `1 - m` and read backwards |
| Symmetry.DiagonalProductSumDihedral | soaisu_ring_validator.py:43-45 | the diagonal product sum of any rotation and of the reversal equals the original's |
| Symmetry.TriangleProductSumDihedral | soaisu_ring_validator.py:52-54 | the triangle product sum of any rotation and of the reversal equals the original's |
| Symmetry.PowerSumPermutation | soaisu_ring_validator.py:12-14 | two lists with the same entries have the same power sum of every degree |
| Symmetry.PowerSumsPermutation | soaisu_ring_validator.py:105-115 | two lists with the same entries have the same power-sum tuple, so sorting the set first does not affect the test |
| Arrangement.Rotate | soaisu_ring_validator.py:66 | the rotation has as many entries as the arrangement; its entries are stated by `RotateAt` and `RotatePreservesMultiset` |
| Arrangement.RotateAt | soaisu_ring_validator.py:66 | entry `k` of the rotation by `i` is entry `(k + i) % n` of the arrangement |
| Arrangement.RotatePreservesMultiset | soaisu_ring_validator.py:66 | a rotation holds the same entries as the arrangement |
| Arrangement.Reverse | soaisu_ring_validator.py:68 | the reversal has as many entries as the arrangement; its entries are stated by `ReverseAt` |
| Arrangement.ReverseAt | soaisu_ring_validator.py:68 | entry `k` of the reversal is entry `n - 1 - k` of the arrangement |
| Arrangement.ReverseReverse | soaisu_ring_validator.py:68 | reversing twice gives the arrangement back |
| Arrangement.ReversePreservesMultiset | soaisu_ring_validator.py:68 | the reversal holds the same entries as the arrangement |
| Arrangement.RotateRotate | soaisu_ring_validator.py:66 | rotating by `i` and then by `j` is rotating by `(i + j) % n` |
| Arrangement.ReverseRotate | soaisu_ring_validator.py:68-70 | the reversal of a rotation by `i` is the rotation of the reversal by `(n - i) % n` |
| Arrangement.Permutations | soaisu_ring_validator.py:124-125 | a list of `n` entries has `n!` orderings listed, one per ordering of the positions, as `itertools.permutations` yields |
| Arrangement.PermutationsSound | soaisu_ring_validator.py:124-125 | every ordering produced holds exactly the entries of the input |
| Arrangement.PermutationsComplete | soaisu_ring_validator.py:124-125 | every ordering of the input's entries is produced |
| Dedup.LexLessTotal | soaisu_ring_validator.py:72 | tuple `<` is total on distinct tuples: of two different tuples one is smaller |
| Dedup.LexLessTransitive | soaisu_ring_validator.py:72 | tuple `<` is transitive |
| Dedup.MinOf | soaisu_ring_validator.py:72 | the result of `min` is an entry of the list and no entry is smaller |
| Dedup.MinUnique | soaisu_ring_validator.py:72 | an entry that no entry is smaller than is the result of `min` |
| Dedup.Minimum | soaisu_ring_validator.py:72 | the loop keeping the first strictly smaller entry returns `MinOf` |
| Dedup.EquivalentArrangements | soaisu_ring_validator.py:63-71 | the list built is `Orbit(p)`: the `n` rotations of `p` in order, then the `n` rotations of its reversal |
| Dedup.Canonical | soaisu_ring_validator.py:72 | the representative is one of the equivalent arrangements and none of them is smaller |
| Dedup.OrbitClosed | soaisu_ring_validator.py:63-71 | an arrangement equivalent to an equivalent of `p` is equivalent to `p` |
| Dedup.OrbitSymmetric | soaisu_ring_validator.py:63-71 | if `q` is equivalent to `p` then `p` is equivalent to `q` |
| Dedup.OrbitPreservesEntries | soaisu_ring_validator.py:63-71 | equivalent arrangements hold the same entries |
| Dedup.CanonicalOfEquivalent | soaisu_ring_validator.py:62-73 | equivalent arrangements get the same representative |
| Dedup.CanonicalDihedralInvariant | soaisu_ring_validator.py:62-73 | any rotation and the reversal of `p` get the representative of `p` |
| Dedup.CanonicalIdempotent | soaisu_ring_validator.py:62-73 | the representative holds the same entries and is its own representative |
| Dedup.CanonicalWhenLeast | soaisu_ring_validator.py:62-73 | `p` is its own representative exactly when no rotation of `p` or of its reversal is smaller |
| Dedup.ListOf | soaisu_ring_validator.py:74 | `list(s)` holds exactly the members of `s`, each once |
| Dedup.UniqueArrangements | soaisu_ring_validator.py:56-74 | the output holds exactly the representatives of the input permutations, has no duplicates and is no longer than the input; every input must be non-empty |
| Matcher.SortedList | soaisu_ring_validator.py:105-106 | `sorted(list(s))` holds each member of the set once, in strictly increasing order |
| Matcher.ArrangementPowerSums | soaisu_ring_validator.py:105-115 | every arrangement of a set has the power-sum tuple of the sorted list |
| Matcher.RepresentativesOfSet | soaisu_ring_validator.py:124-128 | the deduplicated permutations of a set are exactly the arrangements of the set that are their own representatives |
| Matcher.CyclicSumList | soaisu_ring_validator.py:139-140 | the list of cyclic product sums of degrees 1..k, in order |
| Matcher.RingCandidates | soaisu_ring_validator.py:134-156 | the pairs kept are `MatchingPairs(u1, u2)`, in nested-loop order |
| Matcher.MatchingPairsMembership | soaisu_ring_validator.py:134-156 | a pair is kept exactly when its two arrangements come from the two lists and agree on cyclic sums 1..5, the diagonal sum and the triangle sum |
| Matcher.EmbeddedStage | soaisu_ring_validator.py:165-197 | the pairs kept are `EmbeddedSurvivors(candidates)`, skipping with `continue` those that fail step 5 or step 6 |
| Matcher.EmbeddedSurvivorsMembership | soaisu_ring_validator.py:171-197 | a candidate survives exactly when positions 0, 2, 4 of the first arrangement and positions 1, 3, 5 of the second agree on power sums 0..2 and cyclic sums 1..2 |
| Matcher.EmbeddedSurvivorsSubsequence | soaisu_ring_validator.py:165-197 | the final rings are the candidates with some left out, in the same order |
| Matcher.MatchingPairsDistinct | soaisu_ring_validator.py:134-156 | when neither list of arrangements repeats an entry, no pair is kept twice |
| Matcher.EmbeddedSurvivorsDistinct | soaisu_ring_validator.py:165-197 | dropping candidates keeps a list without repeated pairs free of repeats |
| Matcher.CandidatesOfSets | soaisu_ring_validator.py:127-156 | from the deduplicated arrangements of two sets of six, steps 2 to 4 keep exactly the ring candidates of the sets, each pair once and both arrangements of length 6 |
| Matcher.RingMatchUpToEquivalence | soaisu_ring_validator.py:134-156 | steps 2 to 4 give the same answer for any rotation or reversal of either arrangement |
| Matcher.RingMatchOfRepresentatives | soaisu_ring_validator.py:127-156 | steps 2 to 4 accept the pair of representatives exactly when they accept the original pair |
| Matcher.MatchRings | soaisu_ring_validator.py:105-197 | `NotSoaisu` exactly when arrangements of the two sets have different power sums of degrees 0..5; otherwise the candidates are exactly the pairs of representative arrangements of the two sets that pass steps 2 to 4, and the rings are the candidates that pass steps 5 and 6, in order; neither list repeats a pair |
| Algebraic.Lift | soaisu_ring_algebraic_verifier.py:47-48 | the lifted list has as many entries as the base list; its entries are stated by `LiftAt` |
| Algebraic.LiftAt | soaisu_ring_algebraic_verifier.py:47-48 | entry `i` of the lifted list is `v*n + m` for the base entry `v` at position `i` |
| Algebraic.LiftIdentity | soaisu_ring_algebraic_verifier.py:47-48 | at `n = 1, m = 0` the lift returns the base values |
| Algebraic.LiftCompose | soaisu_ring_algebraic_verifier.py:47-48 | lifting twice is one lift with composed slope and offset |
| Algebraic.SumOfPowers | soaisu_ring_algebraic_verifier.py:59-60 | `sum(val ** p for val in values)` is the power sum of degree `p` |
| Algebraic.CyclicProdSumExpr | soaisu_ring_algebraic_verifier.py:27-38 | the result is `CyclicSum(arr, mPower)`, the validator's cyclic product sum, on every input, including an empty list and degree 0, although neither is tested for |
| Algebraic.HoldsForAllNM | soaisu_ring_algebraic_verifier.py:58-169 | the symbolic result: every comparison holds at every point `(n, m)`; when it is true the comparisons hold at the base values themselves |
| Algebraic.HoldsForAllNMUnderLift | soaisu_ring_algebraic_verifier.py:47-48 | a pair confirmed for all `n` and `m` stays confirmed after both lists are lifted by the same `v*n + m` |
| Algebraic.CompareAllConditions | soaisu_ring_algebraic_verifier.py:53-169 | all stages run without stopping early; the flag returned is true exactly when every comparison holds on the two given lists |
| Algebraic.VerifyAllConditionsAt | soaisu_ring_algebraic_verifier.py:40-169 | both lists are lifted to `(n, m)` and all stages run without stopping early; the flag returned is true exactly when every comparison holds at `(n, m)`: power and cyclic sums of degrees 1..5, the diagonal and triangle sums, and the triangles at positions 0, 2, 4 and 1, 3, 5 on power and cyclic sums of degrees 1..2 |
| Algebraic.PowerSumsAgreeAsTuples | soaisu_ring_algebraic_verifier.py:58-72 | comparing degrees 1..k one at a time is comparing the validator's tuples of degrees 0..k, for lists of equal length |
| Algebraic.ConditionsAtBaseValues | soaisu_ring_algebraic_verifier.py:47-167 | at `n = 1, m = 0` the comparisons hold exactly when the validator's power-sum stage, steps 2 to 4 and the embedded test all accept the same ordered pair |
| Algebraic.SymbolicImpliesValidator | soaisu_ring_algebraic_verifier.py:40-169 | a pair confirmed for all `n` and `m` passes every test of the validator in the given order |
| Algebraic.SymbolicImpliesCandidate | soaisu_ring_algebraic_verifier.py:40-169 | the pair of representatives of a pair confirmed for all `n` and `m` is one of the validator's candidates for the two sets |
| Samples.SampleRingAtBaseValues | soaisu_ring_algebraic_verifier.py:177-178 | the sample pair `5,14,34,45,36,16` and `6,21,40,44,29,10` passes every comparison at `n = 1, m = 0` |
| Expansion.PowerSumsOfLift | soaisu_ring_algebraic_verifier.py:58-68 | two lists with equal power sums of degrees 0..K keep equal power sums of degrees 0..K after the same lift, at every `(n, m)` |
| Expansion.WindowCoeffsEval | soaisu_ring_algebraic_verifier.py:31-36 | the window product of the lifted list is the window's coefficient list evaluated at `(n, m)` |
| Expansion.CyclicSumOfLift | soaisu_ring_algebraic_verifier.py:27-38 | the cyclic product sum of the lifted list is a polynomial in `n` and `m` whose coefficients depend on the base values only |
| Expansion.DiagonalOfLift | soaisu_ring_algebraic_verifier.py:96-99 | the diagonal product sum of the lifted list is a polynomial in `n` and `m` with coefficients from the base values |
| Expansion.TriangleOfLift | soaisu_ring_algebraic_verifier.py:114-117 | the triangle product sum of the lifted list is a polynomial in `n` and `m` with coefficients from the base values |
| Expansion.TrianglesOfLift | soaisu_ring_algebraic_verifier.py:132-133 | the inscribed triangles of a lifted hexagon are the lifted triangles of the base hexagon |
| Expansion.LiftedHexagonsAgree | soaisu_ring_algebraic_verifier.py:58-127 | equal coefficient lists give equal power, cyclic, diagonal and triangle sums of the lifted hexagons at every point |
| Expansion.LiftedTrianglesAgree | soaisu_ring_algebraic_verifier.py:132-167 | equal coefficient lists give equal power and cyclic sums of degrees 1..2 for the lifted triangles at every point |
| Expansion.CoefficientsGiveIdentity | soaisu_ring_algebraic_verifier.py:58-169 | two hexagons whose coefficient lists agree pass every comparison for all `n` and `m` |
| SampleIdentity.SampleCoefficientsAgree | soaisu_ring_algebraic_verifier.py:177-178 | the sample hexagons have equal power sums of degrees 0..5, their crosswise triangles equal power sums of degrees 0..2, and every cyclic, diagonal and triangle sum has equal coefficient lists |
| SampleIdentity.SampleHoldsForAllNM | soaisu_ring_algebraic_verifier.py:177-189 | the sample pair `5,14,34,45,36,16` and `6,21,40,44,29,10` passes every comparison at every point `(n, m)`, the result the verifier reports for it |
| Samples.SecondRingRepresentative | soaisu_ring_validator.py:62-73 | the representative of `6,21,40,44,29,10` is `6,10,29,44,40,21` |
| Samples.KnownSample | soaisu_ring_validator.py:102-103 | on the sample sets of the prompts the check passes the power-sum stage and reports the pair of representatives as a ring |
| Samples.UnequalSample | soaisu_ring_validator.py:112-118 | sets whose sums differ (21 and 22) stop at the power-sum stage |

## Left out

- `parse_input_set` in both programs (interactive input, text parsing, retry loops) and all printing are not modelled. Both programs receive their inputs as parameters here.
- The final summary block of the validator (soaisu_ring_validator.py:199-230) is display only and is not modelled. It prints positions 0, 2, 4 of the second arrangement as its embedded triangle, not the positions 1, 3, 5 that step 5 actually compares.
- Symbolic algebra (`symbols`, `expand`, and equality of expanded expressions) is not modelled as such.
  - `VerifyAllConditionsAt` evaluates each comparison at one integer point `(n, m)`.
  - The symbolic result is the predicate `HoldsForAllNM`, which quantifies over all points and is not computed by a method.
  - Coefficient lists in `n` and `m` (module `Expansion`) stand in for expanded polynomials. They are worked out for the sample pair only, which gives `HoldsForAllNM` for that pair.
- Arrangement.Rotate: its own contract states only the length. The entries are stated by `RotateAt` and `RotatePreservesMultiset`. Keeping them off the function keeps the proofs that use it within the solver's limits.
- Arrangement.Reverse: its own contract states only the length. The entries are stated by `ReverseAt`, for the same reason.
- Algebraic.Lift: its own contract states only the length. The entries are stated by `LiftAt`, for the same reason.
- Matcher.MatchRings: states which pairs are candidates, but not in which order they appear. Their order follows the iteration order of a Python `set`, which the language leaves unspecified; `Dedup.ListOf` leaves it open in the same way. The rings keep the candidates' order, and that is stated.
- Dedup.UniqueArrangements: the order of the returned list is left open for the same reason.
- The brute-force finder program (soaisu_ring_finder .py) is not part of this model.
- The validator's early return when no candidate is found (soaisu_ring_validator.py:158-160) gives `Checked([], [])`. This is the same final outcome as running step 5 on an empty list.
- Steps 5 and 6 in the validator and the triangle comparisons in the verifier follow the code. Positions 0, 2, 4 of S1 (a1, a3, a5 in one-based naming) are compared with positions 1, 3, 5 of S2 (a2, a4, a6).
