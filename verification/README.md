# Proofs about the numerical kernels of AMPE

AMPE solves phase-field equations for the microstructure of alloys.  This project models three
groups of its kernels over exact reals and integers and proves what they are meant to compute.

**The Poisson assembly.**  `CellPoissonHypreSolver` turns `M div(D grad u) + C u = f` on a box of
cells into a matrix.  A variable `M` is applied as `M^1/2` on both sides, leaving the `C` term
alone; the linear solver gets `f / M^1/2` and its solution is multiplied by `M^1/2`.  The modules
`PoissonOperator` (the equation, the matrix, the quadratic form), `PoissonSolver` (the class and
its arrays), `SqrtArray` (the strided walk that takes square roots of a box of any dimension) and
`Boxes`, `BoxSums`, `Indices` (cells, faces and their positions in flat arrays) show that the
matrix represents the equation exactly, is symmetric positive definite, and reaches the linear
solver with every entry in its place.

**CALPHAD thermodynamics and the Newton solvers.**  Phase energies are reference energies plus
ideal mixing plus Redlich-Kister polynomials, with hand-expanded first and second derivatives for
2, 3 and n components.  Systems of 2, 4 or 5 equations are solved by a damped Newton iteration with
Cramer's rule.  `Calculus` defines "is the derivative" by a continuous secant slope (epsilon and
delta), `SmoothLog`, `RedlichKister`, `TernaryMixing`, `CalphadFunctions`, `PhaseEnergies`,
`Penalty` and `Multicomponent` prove the derivative routines exact, `Determinant` proves Cramer's
rule for every size, `NewtonSolver` follows the iteration, and `BinarySolvers`, `TernarySolvers`,
`PhaseEquilibrium` and `EnergyMinima` treat the systems themselves: exact Jacobians, their
determinants, uniqueness, common tangents, and zeros as exactly the constrained minima of the energy.

**Diffusion matrices and loops over patches.**  `Diffusion` covers the mobility matrix and its
product with the Hessian, `FaceLoops` the weighting and blending of face coefficients, and
`PatchWalk` the triple loop whose three positions are advanced by increments.

Routines that change arrays or objects are methods over arrays and classes, proved against
functions that say what the new contents are; the theorems are about those functions.  Further lemmas
fix the functions themselves by what they do at known places (edges of the composition triangle,
quadratic fields, triangular matrices, solvers that return their input), with the constants of the
source written out.

Conventions.  `ln` is any function whose derivative is 1/x for x > 0, and `sqrt` any function that
gives positive square roots of positive numbers.  A function has at most one
derivative in the sense used here (`Calculus.DerivUnique`).  "Convex" is the strict tangent inequality on a
domain chosen by the reader of the theorem.  Read-only patch data and coefficient fields are
sequences or functions of the cell or face.

## Model

| member | source | states |
|---|---|---|
| SmoothLog.XLogXIsC1 | source/xlogx.C:47-75 | the continued x log x is differentiable at every x, the cutoff 1e-8 included, with derivative `xlogx_deriv` |
| SmoothLog.XLogXIsC2 | source/xlogx.C:63-90 | `xlogx_deriv` is differentiable at every x, the cutoff included, with derivative `xlogx_deriv2`: the extension is C2 as its comment says |
| SmoothLog.AboveCutoff | source/xlogx.C:42-90 | above 1e-8 the three routines are x ln x, ln x + 1 and 1/x; below it the second derivative is 1e8 |
| PhaseEnergies.MixBinaryExact | source/CALPHADFunctions.C:45-117 | for all coefficients and compositions the first binary routine is the derivative of the mixing energy, and the expanded quartic of the second that of the first |
| CalphadFunctions.RedlichKisterForm | source/CALPHADFunctions.C:45-62 | the mixing energy is c_A c_B times the cubic l0 + l1 d + l2 d^2 + l3 d^3 in d = c_A - c_B, and exchanging the species is the same as negating l1 and l3 |
| PhaseEnergies.BinaryPhaseExact | source/CALPHADEqConcSolverBinary.C:47-108 | slope and curvature as the solvers add them up are the first and second derivatives of the whole binary phase energy |
| PhaseEnergies.PureSpecies | source/CALPHADEqConcSolverBinary.C:62-65 | the level of that energy: at pure A or B it is the reference energy of the species, plus what x log x leaves at the cutoff |
| PhaseEnergies.ReferenceShift | source/CALPHADEqConcSolverBinary.C:47-73 | raising the reference energies by a and b raises the energy by c a + (1 - c) b and the slope by a - b, and leaves the curvature |
| PhaseEnergies.IdealAboveCutoff | source/CALPHADFunctions.C:119-127 | away from the ends the ideal part is RT (c_A ln c_A + c_B ln c_B) |
| CalphadFunctions.FMixDerivTernary | source/CALPHADFunctions.C:373-472 | the accumulating routine leaves the two partial derivatives of the ternary mixing energy |
| CalphadFunctions.FMixDeriv2Ternary | source/CALPHADFunctions.C:476-746 | the accumulating routine leaves the four second partial derivatives |
| TernaryMixing.MixFirstExact | source/CALPHADFunctions.C:327-472 | the two values of the first-derivative routine are the exact partial derivatives of the ternary energy with c_C = 1 - c_A - c_B |
| TernaryMixing.MixSecondExact | source/CALPHADFunctions.C:476-746 | the four values of the second-derivative routine are the exact partial derivatives of those two |
| TernaryMixing.CrossTermsAgree | source/CALPHADFunctions.C:549-677 | the two cross derivatives, written out separately, are equal: the assertion the solvers make within 1e-6 (source/CALPHADEqPhaseConcSolverTernary.C:172) holds exactly |
| CalphadFunctions.MixOnEdges | source/CALPHADFunctions.C:327-359 | on each edge of the triangle of compositions the ternary mixing energy is the binary one of the two species left, with their coefficients |
| CalphadFunctions.MixOfThree | source/CALPHADFunctions.C:327-359 | the three-species coefficients add c_A c_B c_C (c_A m0 + c_B m1 + c_C m2) |
| PhaseEnergies.TernaryEnergyExact | source/CALPHADEqPhaseConcSolverTernary.C:66-129 | both slopes are the partial derivatives of the ternary phase energy, ideal part included |
| PhaseEnergies.TernarySlopesExact | source/CALPHADEqPhaseConcSolverTernary.C:146-207 | the three curvatures are the four partial derivatives of the slopes |
| PhaseEnergies.EnergyOnEdges | source/CALPHADEqPhaseConcSolverTernary.C:66-110 | on each edge the ternary energy is the binary energy of the two species left plus RT xlogx(0), which fixes its level at the three corners |
| PhaseEnergies.ReferenceShift3 | source/CALPHADEqPhaseConcSolverTernary.C:66-129 | raising the three reference energies raises the energy by their mean and the slopes by their differences from the third |
| PhaseEnergies.IdealAboveCutoff3 | source/CALPHADFunctions.C:361-371 | away from the edges the ideal part is RT times the sum of the three c ln c |
| PhaseEnergies.TernaryEnergyAlong | source/CALPHADEqPhaseConcSolverTernary.C:66-129 | along every line of compositions the ternary energy changes at the rate its two slopes give |
| Penalty.DerivExactIff | source/CALPHADFunctions.C:273-307 | for all parameters, the penalty derivative is exact at a composition if and only if the thresholds are in order, or it is not alpha1, or the upper coefficients are zero |
| Penalty.JumpAtThreshold | source/CALPHADFunctions.C:273-307 | with p22 = 1 and alpha1 > alpha2, for example 1 and 0, it is wrong at alpha1 |
| Penalty.Deriv2ExactIff | source/CALPHADFunctions.C:291-325 | for all parameters, the second derivative is exact at a composition if and only if that is not a threshold with a nonzero quadratic coefficient (equal coefficients where both coincide; matching slope and curvature where they are in the wrong order) |
| Penalty.KinkAtThreshold | source/CALPHADFunctions.C:309-325 | with p12 = 1 and alpha1 < alpha2, for example 1/4 and 3/4, it is wrong at alpha1, where the first derivative is right |
| Penalty.ExactOffThresholds | source/CALPHADFunctions.C:273-325 | away from both thresholds both routines are exact, whatever their order |
| Penalty.PenaltyLevel | source/CALPHADFunctions.C:273-289 | zero between the thresholds, and p2 d^2 + p3 d^3 at a distance d beyond one |
| Multicomponent.FMixExact | source/CALPHADFunctions.C:248-271 | for any number of components, gradient and Hessian of the pairwise energy with the last concentration eliminated |
| Multicomponent.FMixSpecialises | source/CALPHADFunctions.C:45-62 | for one and two independent concentrations that energy is the binary and the ternary mixing energy |
| Multicomponent.CurvatureIsHessian | source/CALPHADFunctions.C:265-270 | the Hessian after elimination is H_ij - H_iN - H_jN + H_NN of the unconstrained energy |
| Multicomponent.MixedIsHessian | source/CALPHADFunctions.C:192-205 | the scalar formula is the (i, j) second derivative of the sum over all pairs, for i < j |
| Multicomponent.GMixDeriv2 | source/CALPHADFunctions.C:207-231 | the four loops add up to the (ic, ic) second derivative of the sum over all pairs |
| Multicomponent.FMixMixDeriv2 | source/CALPHADFunctions.C:248-271 | the routine returns the four-term combination, with c_N accumulated by its loop |
| Multicomponent.FMixMixDeriv2Error | source/CALPHADFunctions.C:207-271 | for all coefficients, compositions and indices, by how much the n-component routine misses the exact second partial derivative: the cubic parts of its diagonal terms, and the asymmetry of the scalar formula when ic0 > ic1 |
| Multicomponent.FMixMixDeriv2Exact | source/CALPHADFunctions.C:233-271 | so with l3 = 0 it is exact if and only if ic0 <= ic1 or l1 (c_ic0 - c_ic1) = 0 |
| Multicomponent.WrongOrderExample | source/CALPHADFunctions.C:233-271 | it is wrong for ic0 = 1, ic1 = 0, l1 = 1 at every (c0, c1) with c0 != c1, for example (1/4, 1/2) |
| Multicomponent.OneComponentIsBinary | source/CALPHADFunctions.C:207-271 | for n = 1 it equals the binary second derivative if and only if l3 = 0, c = 1/2 or 6 c (1 - c) = 1: its diagonal terms leave the cubic coefficient out, and the assertion `l3<=1.e-15` lets negative values through |
| Multicomponent.CubicExample | source/CALPHADFunctions.C:207-231 | it is wrong for l3 = -1 at every c but the three of the condition, for example c = 1/4 |
| Multicomponent.FIdealMixDeriv2 | source/CALPHADFunctions.C:169-190 | each of the n^2 entries is written and ends up as the Hessian entry it stands for, both halves |
| Multicomponent.FIdealMixSymmetric | source/CALPHADFunctions.C:185-189 | the matrix of those entries is symmetric |
| Multicomponent.FIdealMixExact | source/CALPHADFunctions.C:169-190 | those entries are the exact second partial derivatives of the n-component ideal mixing energy |
| Multicomponent.QuadraticIsSquares | source/CALPHADFunctions.C:169-190 | the quadratic form of that matrix is n + 1 weighted squares, one of them for the eliminated component |
| Multicomponent.FIdealMixPositive | source/CALPHADFunctions.C:169-190 | so it is positive definite whenever rt > 0, at every composition |
| Multicomponent.FIdealMixSpecialises | source/CALPHADFunctions.C:139-167 | n = 1 and n = 2 give the binary and the ternary routine |
| Determinant.RowLinear | source/math_utilities.C:94-119 | the expansion along the first column is linear in each row, for every size |
| Determinant.EqualRows | source/math_utilities.C:94-119 | two equal rows anywhere make it vanish |
| Determinant.TriangularDeterminant | source/math_utilities.C:94-119 | for a triangular matrix of any size it is the product of the diagonal, so 1 for the identity |
| Determinant.CramerIdentity | source/DampedNewtonSolver.C:71-93 | row i of J times the column-replaced determinants is fvec[i] det J, for every size |
| Determinant.CramerSolves | source/DampedNewtonSolver.C:71-93 | Cramer's rule solves J del = fvec exactly whenever det J is not zero, for every size |
| NewtonSolver.Det3 | source/math_utilities.C:43-56 | the six-term formula is the determinant |
| NewtonSolver.Det4 | source/math_utilities.C:58-92 | the 24-term formula is the determinant |
| NewtonSolver.DeterminantN | source/math_utilities.C:94-119 | the recursive routine computes the determinant |
| NewtonSolver.DampedNewtonSolver.UpdateSolution | source/DampedNewtonSolver.C:58-106 | c becomes c - alpha times the clamped Cramer solution; each change is limited to 0.25 alpha in the direction of that solution; fjac and fvec are left as they were |
| NewtonSolver.StepIsLimited | source/DampedNewtonSolver.C:93-105 | with Cramer value x, each component changes by at most 0.25 alpha, never against the sign of x, by exactly 0.25 alpha if abs(x) > 0.25 and by alpha x otherwise |
| NewtonSolver.StepSolvesSystem | source/DampedNewtonSolver.C:81-105 | an unclamped step c to c' satisfies J (c - c') = alpha fvec, row by row |
| NewtonSolver.DampedNewtonSolver.ComputeSolution | source/NewtonSolver.C:163-255 | the loop visits exactly the iterates of the step function, stops at the first one within tolerance, and reports too many iterations or a singular Jacobian only then, the determinant being within 1e-15 of zero |
| NewtonSolver.RunStaysNear | source/DampedNewtonSolver.C:93-105 | after k updates, clamped or not, no unknown is further than 0.25 alpha k from where it started |
| NewtonSolver.RunIsRegular | source/DampedNewtonSolver.C:71-72 | every update of a run is made at a determinant above 1e-15 in size |
| NewtonSolver.MassBalance | source/DampedNewtonSolver.C:81-105 | after k unclamped updates the residual of any affine row is (1 - alpha)^k times its first value, whatever the other rows do |
| NewtonSolver.FullStepBalances | source/DampedNewtonSolver.C:101-105 | with alpha = 1 it is zero after one update and stays zero |
| BinarySolvers.PhaseExact | source/CALPHADConcSolverBinaryWithPenalty.C:41-90 | with or without penalty, slope and curvature of a phase are the exact derivatives of its energy if and only if those of the penalty are |
| BinarySolvers.SmoothOffThresholds | source/CALPHADConcSolverBinaryWithPenalty.C:66-90 | which is so away from the thresholds, whatever their order |
| BinarySolvers.UnpenalisedPhase | source/CALPHADConcSolverBinaryWithPenalty.C:41-90 | between the thresholds energy, slope and curvature are those of the unpenalised phase |
| BinarySolvers.ConcSolverBinary.RHS | source/CALPHADConcSolverBinary.C:84-98 | the loops and assignments fill fvec with the two residuals of the partition system |
| BinarySolvers.ConcSolverBinary.Jacobian | source/CALPHADConcSolverBinary.C:147-165 | the loops and assignments fill fjac with the partition Jacobian |
| BinarySolvers.PartitionResiduals | source/CALPHADConcSolverBinary.C:84-98 | the residuals are the excess of the average over c0, and the difference of the exact slopes in units of RT |
| BinarySolvers.PartitionJacobianExact | source/CALPHADConcSolverBinary.C:136-165 | its four entries are the partial derivatives of the residuals, with and without penalty, wherever the penalty has a second derivative |
| BinarySolvers.PartitionDeterminant | source/CALPHADConcSolverBinary.C:155-165 | its determinant is -((1 - h) g_S' + h g_L') / RT |
| BinarySolvers.PartitionNonsingular | source/CALPHADConcSolverBinary.C:155-165 | for curvatures >= g > 0 and 0 <= h <= 1 it is at most -g / RT, so the Newton step is defined |
| BinarySolvers.PartitionMassBalance | source/CALPHADConcSolverBinary.C:92-94 | over any unclamped updates the average composition approaches c0 by the factor 1 - alpha each |
| BinarySolvers.PartitionZero | source/CALPHADConcSolverBinary.C:84-98 | for convex phases there is at most one zero for each h in [0, 1], and it has the least energy (1 - h) f_L + h f_S among all pairs of the same average |
| BinarySolvers.PartitionIffLeast | source/CALPHADConcSolverBinary.C:84-98 | for convex phases, 0 < h < 1 and compositions inside the domain, a pair of the right average is a zero if and only if no pair of that average has less energy |
| BinarySolvers.EqConcSolverBinary.RHS | source/CALPHADEqConcSolverBinaryWithPenalty.C:49-77 | base class and penalty additions together fill fvec with the common-tangent residuals of the penalised energies |
| BinarySolvers.EqConcSolverBinary.Jacobian | source/CALPHADEqConcSolverBinaryWithPenalty.C:80-110 | base class and penalty additions together fill fjac |
| BinarySolvers.EquilibriumResiduals | source/CALPHADEqConcSolverBinary.C:62-73 | the residuals are the height of f_L over the tangent of f_S, and the difference of the slopes |
| BinarySolvers.EquilibriumShift | source/CALPHADEqConcSolverBinary.C:62-73 | raising the reference energies of the liquid by x and y raises the residuals by a x + (1 - a) y and x - y |
| BinarySolvers.EquilibriumJacobianExact | source/CALPHADEqConcSolverBinary.C:77-108 | its four entries are the partial derivatives of the residuals, the cancellation in row 0 included, wherever the penalty is smooth |
| BinarySolvers.EquilibriumIsTangent | source/CALPHADEqConcSolverBinary.C:47-73 | both residuals vanish if and only if the two energies have a common tangent line there, and this does not change when the phases are exchanged, although row 0 uses the slope of one phase |
| BinarySolvers.EquilibriumSplitMinimal | source/CALPHADEqConcSolverBinary.C:47-73 | for convex phases the split at a zero has the least energy over all fractions and compositions of the same average |
| BinarySolvers.EquilibriumIffLeast | source/CALPHADEqConcSolverBinary.C:47-73 | for convex phases and a fraction strictly between 0 and 1, the residuals vanish if and only if no fraction and pair of the same average has less energy |
| TernarySolvers.ConcSolverTernary.RHS | source/CALPHADConcSolverTernary.C:54-117 | fvec is filled with the four residuals of the partition system |
| TernarySolvers.ConcSolverTernary.Jacobian | source/CALPHADConcSolverTernary.C:121-177 | fjac is filled with the 4x4 partition Jacobian |
| TernarySolvers.PartitionResiduals | source/CALPHADConcSolverTernary.C:101-117 | the residuals are the excesses of both averages and the differences, liquid less solid, of both slopes |
| TernarySolvers.PartitionJacobianExact | source/CALPHADConcSolverTernary.C:101-176 | each of its 16 entries is the partial derivative of its residual |
| TernarySolvers.PartitionDeterminant | source/CALPHADConcSolverTernary.C:121-177 | its determinant is that of the 2x2 Hessian (1 - h) H_S + h H_L |
| TernarySolvers.PartitionNonsingular | source/CALPHADConcSolverTernary.C:121-177 | for positive definite phase Hessians of determinant >= m and 0 <= h <= 1 it is at least m, so the Newton step passes the singularity test when m exceeds its tolerance |
| TernarySolvers.PartitionMassBalance | source/CALPHADConcSolverTernary.C:101-105 | over any unclamped updates each of the two averages approaches its target by the factor 1 - alpha each |
| TernarySolvers.PartitionZero | source/CALPHADConcSolverTernary.C:54-117 | for convex phases at most one zero, of least energy among all pairs of the same averages |
| TernarySolvers.PartitionIffLeast | source/CALPHADConcSolverTernary.C:54-117 | under the same conditions as in the binary case, the zeros are exactly the pairs of least energy |
| TernarySolvers.EqPhaseConcSolverTernary.RHS | source/CALPHADEqPhaseConcSolverTernary.C:66-129 | fvec is filled with the chord, the two slope differences and the two lever-rule residuals |
| TernarySolvers.EqPhaseConcSolverTernary.Jacobian | source/CALPHADEqPhaseConcSolverTernary.C:146-257 | fjac is filled with the 5x5 Jacobian |
| TernarySolvers.EquilibriumResiduals | source/CALPHADEqPhaseConcSolverTernary.C:112-129 | the residuals are the depth of f_S below the tangent plane of f_L, the differences of both slopes, and the excesses of both averages |
| TernarySolvers.EquilibriumShift | source/CALPHADEqPhaseConcSolverTernary.C:112-129 | raising the reference energies of the solid by x, y, z lowers the first residual by their mean there and the next two by x - z and y - z, and leaves the lever rule |
| TernarySolvers.EquilibriumJacobianExact | source/CALPHADEqPhaseConcSolverTernary.C:210-257 | each of its 25 entries is the partial derivative of its residual, the cancellations in row 0 included |
| TernarySolvers.EquilibriumIsTangentPlane | source/CALPHADEqPhaseConcSolverTernary.C:112-129 | all residuals vanish if and only if there is a common tangent plane and phi obeys the lever rule, unchanged by exchanging the phases |
| TernarySolvers.EquilibriumSplitMinimal | source/CALPHADEqPhaseConcSolverTernary.C:112-129 | for convex phases the split at a zero has the least energy over all fractions and compositions with the same averages |
| TernarySolvers.EquilibriumIffLeast | source/CALPHADEqPhaseConcSolverTernary.C:112-129 | among the unknowns that obey the lever rule, the zeros with 0 < phi < 1 are exactly the splits of least energy |
| PhaseEquilibrium.PartitionUnique | source/CALPHADConcSolverBinary.C:84-98 | for any two convex energies: equal slopes and a given average fix both compositions, also at h = 0 and h = 1 |
| PhaseEquilibrium.PartitionMinimal | source/CALPHADConcSolverBinary.C:84-98 | for any two convex energies: such a pair has the least energy, strictly least for 0 < h < 1 |
| PhaseEquilibrium.PartitionMinimal2 | source/CALPHADConcSolverTernary.C:54-117 | the same with two independent concentrations, strictness included |
| EnergyMinima.EquilibriumIffLeast | source/CALPHADEqConcSolverBinary.C:47-73 | for any two convex energies with derivatives: common tangent and split of least energy are the same |
| EnergyMinima.EquilibriumIffLeast2 | source/CALPHADEqPhaseConcSolverTernary.C:112-129 | the same with two independent concentrations and a common tangent plane |
| Diffusion.ComputeDiffusionMobilityTernaryPhase | source/CALPHADMobility.C:266-284 | the four entries are the symmetric mobility matrix of the atomic mobilities at that composition and temperature, scaled to square micrometres |
| Diffusion.MobilityOfSpecies | source/CALPHADMobility.C:266-284 | the quadratic form of those entries, written with the atomic mobilities: species k moves with the k-th of them, at the three concentrations and the temperature, times 1e12 |
| Diffusion.MobilityIsSquares | source/CALPHADMobility.C:266-284 | its quadratic form is one square per species, weighted by mobility times concentration |
| Diffusion.MobilityDeterminant | source/CALPHADMobility.C:266-284 | its determinant is c0 c1 c2 (m0 m1 c2 + m0 m2 c1 + m1 m2 c0) 1e24 |
| Diffusion.MobilitySemidefinite | source/CALPHADMobility.C:266-284 | so it is positive semidefinite for compositions in the simplex and mobilities >= 0 |
| Diffusion.TernaryReducesToBinary | source/CALPHADMobility.C:246-284 | without the third species it acts as the binary mobility along the remaining direction |
| Diffusion.SmallMatMult | source/DiffusionForConcInPhaseStrategy.C:43-53 | the accumulating loops leave the matrix product, for every n |
| Diffusion.ProductActs | source/DiffusionForConcInPhaseStrategy.C:43-53 | for every n, every pair of matrices (symmetric or not) and every vector x, the rows of that product times x are A (B x) |
| Diffusion.DiffusionForConcInPhase.ComputeLocalDiffusionMatrix | source/DiffusionForConcInPhaseStrategy.C:101-114 | for any number of compositions the last work array is the product of what the mobility and the energy strategy return |
| Diffusion.DiffusionForConcInPhase.ComputeTernaryDiffusionMatrix | source/CALPHADFreeEnergyFunctionsTernary.C:456-500 | with the ternary strategies written out, it is the mobility matrix times the Hessian of the phase energy; for an ideal phase with equal mobilities m it leaves m RT 1e12, 0, 0, m RT 1e12 |
| Diffusion.HessianExact | source/CALPHADFreeEnergyFunctionsTernary.C:456-500 | that Hessian, entry by entry, holds the second partial derivatives of the phase energy |
| Diffusion.DiffusionSpectrum | source/DiffusionForConcInPhaseStrategy.C:101-114 | for every positive definite Hessian that product has trace >= 0, det >= 0, trace^2 >= 4 det and no negative eigenvalue |
| Diffusion.IdealDiffusion | source/DiffusionForConcInPhaseStrategy.C:101-114 | with equal mobilities m and an ideal solution above the logarithm cutoff it is m RT 1e12 times the identity |
| Diffusion.IdealAlloyDiffusion | source/CALPHADFreeEnergyFunctionsTernary.C:456-500 | the same from the phase itself: no interaction coefficients, three equal atomic mobilities, compositions above 1e-8 |
| Boxes.FaceIndexBijective | source/DiffusionForConcInPhaseStrategy.C:786-917 | the X, Y and Z index formulas are bijections from the faces of a box onto [0, number of faces), for any extents |
| FaceLoops.SideWeighting.WeightSide | source/DiffusionForConcInPhaseStrategy.C:786-917 | the triple loop weights each face of the patch, in every component and phase, and changes nothing else; each face once, since weighting one demands that it was not weighted before |
| FaceLoops.SideWeighting.WeightsMean | source/DiffusionForConcInPhaseStrategy.C:786-831 | the weights of a face are interpolated from phi and from eta at the cell of that index and at the one a stride of 1, nx or nx ny behind it, in this order |
| FaceLoops.SideBlend.SumSide | source/EBSCompositionRHSStrategy.C:433-493 | the triple loop adds the weighted coefficients on each face of the patch, once in the same sense, and changes nothing else |
| FaceLoops.BlendSide | source/EBSCompositionRHSStrategy.C:433-493 | both loops in sequence leave (1 - h) D_L + h (1 - e) D_A + h e D_B on each face |
| FaceLoops.BlendIsMean | source/DiffusionForConcInPhaseStrategy.C:815-823 | that blend is d_L + h ((d_A - d_L) + e (d_B - d_A)) |
| FaceLoops.BlendBetween | source/DiffusionForConcInPhaseStrategy.C:820-831 | for h and e in [0, 1] that lies between the smallest and the largest phase coefficient |
| PatchWalk.PhaseConcentrations.ComputePhaseConcentrationsOnPatch | source/CALPHADequilibriumPhaseConcentrationsStrategy.C:133-256 | although three positions are advanced by increments over three different ghost boxes, each cell is solved from its own temperature, composition, phases and first guess, and the first nc results are stored in cl, the next in ca and the last in cb, at its own position |
| PatchWalk.PhaseConcentrations.GuessReturned | source/CALPHADequilibriumPhaseConcentrationsStrategy.C:217-237 | a solver that returns its first guess leaves cl, ca and cb equal to their reference fields in every cell: reading and storing use the same places |
| PatchWalk.PhaseConcentrations.FieldsReachSolver | source/CALPHADequilibriumPhaseConcentrationsStrategy.C:201-237 | a solver that returns a combination of its arguments leaves in cl that combination of the temperature, composition, phi and eta of the cell |
| Boxes.CellIndexBijective | source/CALPHADequilibriumPhaseConcentrationsStrategy.C:133-171 | the cell index formula is a bijection from the cells of a ghost box onto its positions |
| SqrtArray.Advance | source/CellPoissonHypreSolver.C:336-346 | the odometer step adds one in mixed radix, reports the digit that grew, and returns to zero after the last block |
| SqrtArray.BlockIsCells | source/CellPoissonHypreSolver.C:316-335 | each position of a block is one cell of the intersection, with the source position of the same cell |
| SqrtArray.SqrtDepth | source/CellPoissonHypreSolver.C:316-369 | the walk over one depth treats exactly the cells of the intersection and leaves the odometer at zero for the next depth |
| SqrtArray.SqrtArray | source/CellPoissonHypreSolver.C:276-371 | for any number of dimensions, boxes and depths, each cell of the intersection gets the root of its source value and every other cell is unchanged |
| SqrtArray.SourceIsSameCell | source/CellPoissonHypreSolver.C:286-300 | "its source value" is the value of the same cell at the same depth, inside both arrays |
| SqrtArray.CellGetsRoot | source/CellPoissonHypreSolver.C:276-371 | the same by cells: at each depth, a cell of all three boxes gets the root of the source value at its own offset, and every other cell of the target keeps its value |
| PoissonOperator.SymmetrisedRow | source/CellPoissonHypreSolver.C:1048-1208 | a row of the assembled matrix is C v + M^1/2 div(D grad(M^1/2 v)) |
| PoissonOperator.TransformationPreservesMeaning | source/CellPoissonHypreSolver.C:1695-1709 | v solves the system with right-hand side f / M^1/2 if and only if M^1/2 v solves M div(D grad u) + C u = f |
| PoissonOperator.ConstantPreservesMeaning | source/CellPoissonHypreSolver.C:1080-1103 | with a constant M the matrix is the operator itself |
| PoissonOperator.BranchesAgree | source/CellPoissonHypreSolver.C:1080-1208 | for a uniform M the constant and the variable assembly give the same u |
| PoissonOperator.SideByParts | source/CellPoissonHypreSolver.C:1845-1901 | summation by parts over a box of any size: cells times fluxes equals the energy of all faces |
| PoissonOperator.InnerIsEnergy | source/CellPoissonHypreSolver.C:1048-1208 | z . A v is sum of C z v plus, for every face, minus its coefficient times the jumps of M^1/2 z and M^1/2 v, boundary faces included |
| PoissonOperator.MatrixSymmetric | source/CellPoissonHypreSolver.C:753 | the matrix is symmetric, as the storage chosen for it assumes |
| PoissonOperator.MatrixPositiveDefinite | source/ConcFACOps.C:71-85 | for D <= 0 and C > 0 it is positive definite, in two and three dimensions |
| PoissonOperator.SolutionUnique | source/CellPoissonHypreSolver.C:1080-1208 | so the linear system has at most one solution |
| PoissonSolver.CellPoissonHypreSolver.FillSide | source/CellPoissonHypreSolver.C:1032-1046 | every face of a side gets D / h^2, from a constant or from face data |
| PoissonSolver.CellPoissonHypreSolver.CoefficientsMean | source/CellPoissonHypreSolver.C:1032-1046 | h^2 times the entry is the constant D or the datum of the face; C is zero, the constant or the datum of the cell |
| PoissonSolver.CellPoissonHypreSolver.FluxOfQuadratic | source/CellPoissonHypreSolver.C:1027-1046 | on a quadratic u, constant or variable D: h times the flux difference of a side is D u' at the centre of the upper face less D u' at the centre of the lower one |
| PoissonSolver.CellPoissonHypreSolver.ExactOnQuadratics | source/CellPoissonHypreSolver.C:1025-1046 | so with a constant D the discrete M div(D grad u) + C u is exact on quadratics, in two and three dimensions |
| PoissonSolver.CellPoissonHypreSolver.ComputeDiagonalEntries | base/SAMRAI/SAMRAI/source/SAMRAI/solv/fortran/solv_cellpoissonhypresolver3d.f:10-38 | every cell gets C minus the entries of its four or six faces |
| PoissonSolver.CellPoissonHypreSolver.MultiplySide | source/fortran/3d/hyprepoisson.m4:4-57 | each face entry is multiplied once by M^1/2 of the two cells beside it |
| PoissonSolver.CellPoissonHypreSolver.ScaleDiagonal | source/CellPoissonHypreSolver.C:1119-1129 | the diagonal is scaled by M with the C term excluded |
| PoissonSolver.CellPoissonHypreSolver.SetMatrixCoefficients | source/CellPoissonHypreSolver.C:1025-1208 | whatever the arrays held, they end up holding the matrix of the specification: scaled by a constant M, or symmetrised by a variable one |
| PoissonSolver.CellPoissonHypreSolver.OffDiagonalMeans | source/CellPoissonHypreSolver.C:1032-1208 | h^2 times an off-diagonal entry of that matrix is D M for a constant M, and D times M^1/2 in the two cells beside the face for a variable one |
| PoissonSolver.CellPoissonHypreSolver.MobilityMeans | source/CellPoissonHypreSolver.C:1105-1129 | M is the constant or the datum of the cell, and the root squares to it |
| PoissonSolver.Put | source/CellPoissonHypreSolver.C:1365-1370 | the one assignment to the packed array: it demands that the entry has no value yet and is the next one |
| PoissonSolver.CellPoissonHypreSolver.PackCell | source/CellPoissonHypreSolver.C:1365-1370 | the entries of one cell fill its own stretch of the array, which had no values, and no other position |
| PoissonSolver.CellPoissonHypreSolver.PackEntries | source/CellPoissonHypreSolver.C:1344-1377 | each position of the packed array is written exactly once, in order, and holds the entry of its cell and slot, despite the independent running offsets |
| PoissonSolver.CellPoissonHypreSolver.PackedEntries | source/CellPoissonHypreSolver.C:1365-1370 | in the packed array the entries of a cell are those of its lower X, Y and (in 3-D) Z face and its diagonal, in the order of the stencil offsets |
| PoissonSolver.CellPoissonHypreSolver.PackedIsMatrix | source/CellPoissonHypreSolver.C:686-716 | read as symmetric storage with the stencil offsets, slot (cell, s) coupling cell and cell + offset[s], the packed array gives the rows of the assembled matrix |
| PoissonSolver.CellPoissonHypreSolver.SolveSystem | source/CellPoissonHypreSolver.C:1695-1829 | the linear solver's answer solves the system packed in the array it is given if and only if the u returned solves M div(D grad u) + C u = f |
| PoissonSolver.CellPoissonHypreSolver.AssembleAndSolve | source/CellPoissonHypreSolver.C:1025-1377 | the same for assembly, packing and solution in sequence, whatever the arrays held before |
| PoissonSolver.CellPoissonHypreSolver.AssembledPositiveDefinite | source/CellPoissonHypreSolver.C:1025-1208 | for D <= 0, C > 0, M > 0 every assembled matrix is symmetric positive definite, whichever way M was applied |
| PoissonSolver.ConcFACOps.SetOperatorCoefficients | source/ConcFACOps.C:56-86 | for one or two compositions, every face datum becomes -gamma times the diffusion and C becomes 1; M becomes the mobility |
| PoissonSolver.ConcFACOps.OperatorOfComposition | source/ConcFACOps.C:56-86 | the operator the solver then works with: h^2 times its face coefficient is -gamma times the diffusion of that face, C is 1 and M the mobility |
| PoissonSolver.ConcFACOps.CoefficientsSigned | source/ConcFACOps.C:71-85 | for diffusions >= 0 these are the signs that positive definiteness needs |

## Left out

- BinarySolvers.ConcSolverBinary.RHS: two phases only; with a third phase the source adds a residual that its Jacobian does not match.
- BinarySolvers.ConcSolverBinary.Jacobian: two phases only; its terms for a third phase are not derivatives of the residuals in force, and the rows of that phase are not filled.
- PoissonSolver.CellPoissonHypreSolver.SolveSystem: homogeneous system only; boundary adjustment of the matrix (ghost cells, Robin coefficients, `adjustBoundaryEntries`) and the boundary terms of `add_gAk0_toRhs` are not modelled, so the fields are zero outside the box.
- Diffusion.ComputeDiffusionMobilityTernaryPhase: the atomic mobility of a species is any function of composition and temperature.
- Floating-point rounding, overflow and the not-a-number assertions: all arithmetic is exact.
- `exp`, `log` and `sqrt` as library functions: they are parameters of which only the stated property is used.
- Convergence of the Newton iteration: what is proved is where it stops and what each step does.
- Concluding convexity from curvature: convexity is a hypothesis, given as the tangent inequality.  `PartitionNonsingular` in turn asks for the curvature at the point where the Jacobian is taken.
- The singularity test of the Newton update (determinant within 1e-15 aborts): modelled as the outcome `Aborted` of `ComputeSolution` and as a precondition of `UpdateSolution`.
- Row 1 of the Jacobian in source/CALPHADEqConcSolverTernary.C: the system with the lever rule is modelled instead.
- `d_actual_dim` below the compiled dimension in the packing loop.
- PoissonSolver.CellPoissonHypreSolver.SetMatrixCoefficients: once a variable M has switched the transformation on, the source never switches it off, and a constant M then trips its own assertions; the model asks that this does not happen.
- Constant and variable C: the code has a branch for each, with the same arithmetic; the model has one.  The documentation says that a zero C is not a constant C, while `cIsConstant` in source/PoissonSpecifications.h is true for both; the model follows the code, and both ways give the same matrix.
- PatchWalk.PhaseConcentrations.ComputePhaseConcentrationsOnPatch: ghost widths must not exceed those of the other data in every direction; the source asserts this in direction 0 only.
- Read-only patch data are sequences and coefficient fields are functions of cell or face, so aliasing between inputs and outputs is excluded by type.
- Patches, hierarchies, communication, databases, timers, the HYPRE library and file output.  HYPRE enters `SolveSystem` as an arbitrary function.
- Interpolation functions `h(phi)` and averages: a parameter of the face loops.
