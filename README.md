# Siconos integrator layer and utilities, modelled in Dafny

This project models the time-stepping layer of the Siconos nonsmooth-dynamics
platform and a few of its self-contained utilities:

- **MoreauJeanGOSI**: the global Moreau–Jean θ-scheme one-step integrator.
  It covers contact activation (y + γ·h·ẏ), the θ-blended position update,
  the iteration matrix W for each system type, and the elimination of
  prescribed-velocity rows and columns from W together with the saved
  columns WBoundaryConditions. It also covers the free and corrected
  velocities, the reactions to boundary conditions, the residual reduction
  of computeResidu, and the restitution visitor.
- **LsodarOSI** and **Hem5**: the adapters around the Fortran ODE/DAE
  solvers DLSODAR and HEM5. They cover the workspace-size formulas, the
  `_intData`/`rwork`/`iwork` option slots, the setters, the allocation and
  zeroing of the work spaces, and the gather/scatter between per-system
  vectors and flat arrays. They also cover the istate/idid protocol around
  the solver call, the IFCN dispatch and mass/force/q̇ fill of Hem5's
  `fprob`, the scatter of multipliers into the interactions, and Lsodar's
  computeFreeOutput.
- **LagrangianScleronomousR**: the scleronomous Lagrangian relation y = h(q),
  with outputs by derivative level, the input p += Jᵀλ, and the plugins.
- **SiconosSet** and **Cmp**: the ordered set keyed by a sort criterion, and
  the comparison functor that defines the criterion.
- **FclibInterface**: the header and dense-storage conversion of
  `frictionContact_fclib_write`.
- **GamsLink**: bounded file-name composition with strncpy/strncat, and the
  status and parameter bookkeeping of `SN_gams_solve`.
- **Builder**: the name filters, the typedef replacement and the
  registration-macro decisions of the serialisation code generator.

Reals are Dafny `real`, so IEEE rounding is not modelled. Vectors are
`seq<real>` and matrices are row-major `seq<seq<real>>` (module `LinAlg`).
The pointer block vectors that the adapters gather and scatter are sequences
of `array<real>` (module `BlockVectors`). The LU solve, DLSODAR and HEM5 are
code this model cannot see, so they are function parameters:

- `Solver`, with the facts that hold when it solves W·x = b;
- `Dlsodar`, which keeps the state's length;
- `Hem5Solver`, with `KeepsShape`.

Contracts state results in terms of what these parameters return.

## Model

| member | source | states |
|---|---|---|
| Cmp.DefaultModeIsNormal | kernel/src/utils/SiconosTools/Cmp.hpp:143-158 | Without a mode, the criterion is normal and orders by increasing key. |
| Cmp.CallAppliesMember | kernel/src/utils/SiconosTools/Cmp.hpp:81-93 | The functor's Call applies the stored member to the stored object. |
| Cmp.LessByKey | kernel/src/utils/SiconosTools/Cmp.hpp:148-158 | In normal mode a comes before b iff key(a) < key(b); in reverse mode iff key(b) < key(a). |
| Cmp.ReverseSwaps | kernel/src/utils/SiconosTools/Cmp.hpp:148-158 | Reverse mode is normal mode with its arguments swapped. |
| Cmp.StrictWeakOrdering | kernel/src/utils/SiconosTools/Cmp.hpp:96-157 | The comparison is irreflexive, asymmetric and transitive. Incomparability is equality of keys, and it is transitive. |
| Cmp.SameCriterionIgnoresKey | kernel/src/utils/SiconosTools/Cmp.hpp:163-166 | Criteria with different key functions but the same mode are equal; a normal and a reverse criterion are not. |
| SiconosSet.SortedUnderOrder | kernel/src/utils/SiconosTools/SiconosSet.hpp:52-57 | Strictly increasing keys are exactly the order the set's comparison functor defines. |
| SiconosSet.InsertSorted | kernel/src/utils/SiconosTools/SiconosSet.hpp:237-240 | Insertion keeps the sequence strictly sorted by key. |
| SiconosSet.InsertSortedKeys | kernel/src/utils/SiconosTools/SiconosSet.hpp:237-240 | After insertion the keys are the old keys plus t's key. |
| SiconosSet.InsertSortedPresent | kernel/src/utils/SiconosTools/SiconosSet.hpp:237-240 | Inserting an element whose key is present leaves the set unchanged. |
| SiconosSet.InsertSortedAbsent | kernel/src/utils/SiconosTools/SiconosSet.hpp:237-240 | Inserting a new key adds exactly that element and one to the size. |
| SiconosSet.RemoveKey | kernel/src/utils/SiconosTools/SiconosSet.hpp:255-262 | Removal keeps the sequence strictly sorted. |
| SiconosSet.RemoveKeyKeys | kernel/src/utils/SiconosTools/SiconosSet.hpp:255-262 | After removal the keys are the old keys minus k. |
| SiconosSet.RemoveKeyCount | kernel/src/utils/SiconosTools/SiconosSet.hpp:255-262 | Removing an absent key changes nothing; removing a present key takes exactly one element. |
| SiconosSet.RemoveInserted | kernel/src/utils/SiconosTools/SiconosSet.hpp:237-262 | Inserting a new key and then removing it gives back the set. |
| SiconosSet.ReinsertRemoved | kernel/src/utils/SiconosTools/SiconosSet.hpp:237-262 | Removing a present element and inserting it again gives back the set. |
| SiconosSet.SortedKeyCount | kernel/src/utils/SiconosTools/SiconosSet.hpp:105-111 | In the set, the number of elements equals the number of distinct keys. |
| SiconosSet.InsertAll | kernel/src/utils/SiconosTools/SiconosSet.hpp:287-302 | Inserting a sequence of elements one after the other keeps the set sorted. |
| SiconosSet.InsertAllKeys | kernel/src/utils/SiconosTools/SiconosSet.hpp:287-302 | After inserting xs, the keys are the old keys united with those of xs. |
| SiconosSet.FilterKeys | kernel/src/utils/SiconosTools/SiconosSet.hpp:287-302 | The elements of a kept by the intersection (or the difference) carry exactly the keys of a ∩ b (or a ∖ b). |
| SiconosSet.IntersectionKeys | kernel/src/utils/SiconosTools/SiconosSet.hpp:287-291 | Accumulating the intersection into c yields c's keys plus the common keys. |
| SiconosSet.DifferenceKeys | kernel/src/utils/SiconosTools/SiconosSet.hpp:298-302 | Accumulating the difference into c yields c's keys plus the keys of a not in b. |
| SiconosSet.MergeInto | kernel/src/utils/SiconosTools/SiconosSet.hpp:287-302 | The two-cursor merge over sorted a and b inserts exactly the filtered elements of a into c, and c stays sorted. |
| SiconosSet.Intersection | kernel/src/utils/SiconosTools/SiconosSet.hpp:287-291 | commonT receives the elements of s1 whose key is in s2 and is not emptied first. Its keys are its old keys plus the common keys. |
| SiconosSet.Difference | kernel/src/utils/SiconosTools/SiconosSet.hpp:298-302 | commonT receives the elements of s1 whose key is not in s2. Its keys are its old keys plus the keys of s1 ∖ s2. |
| SiconosSet.SiconosSet.constructor | kernel/src/utils/SiconosTools/SiconosSet.hpp:94-98 | A new set is empty and valid. |
| SiconosSet.SiconosSet.Size | kernel/src/utils/SiconosTools/SiconosSet.hpp:108-111 | The size is the number of distinct keys held. |
| SiconosSet.SiconosSet.IsEmpty | kernel/src/utils/SiconosTools/SiconosSet.hpp:116-119 | The set is empty iff its size is 0 iff it holds no key. |
| SiconosSet.SiconosSet.IsIn | kernel/src/utils/SiconosTools/SiconosSet.hpp:181-187 | isIn(t) holds iff some element has t's key; the lookup goes through the order, not identity. |
| SiconosSet.SiconosSet.FindNumber | kernel/src/utils/SiconosTools/SiconosSet.hpp:222-231 | The result is the first position in key order whose number is num, or the end when there is none. |
| SiconosSet.SiconosSet.IsInNumber | kernel/src/utils/SiconosTools/SiconosSet.hpp:193-206 | isIn(num) holds iff some element has number num. |
| SiconosSet.SiconosSet.GetPtr | kernel/src/utils/SiconosTools/SiconosSet.hpp:164-175 | getPtr(num) fails with an error iff no element has number num; otherwise it returns an element of the set with that number. |
| SiconosSet.SiconosSet.Insert | kernel/src/utils/SiconosTools/SiconosSet.hpp:237-240 | insert returns false and changes nothing iff t's key was present. Otherwise it adds exactly t and the set stays sorted. |
| SiconosSet.SiconosSet.Erase | kernel/src/utils/SiconosTools/SiconosSet.hpp:255-262 | erase raises and changes nothing iff t's key is absent. Otherwise it removes exactly that key and one element. |
| SiconosSet.SiconosSet.Clear | kernel/src/utils/SiconosTools/SiconosSet.hpp:266-269 | After clear the set is valid and empty. |
| LagrangianScleronomousR.PowerBalance | kernel/src/modelingTools/LagrangianScleronomousR.cpp:163-193 | Output level 1 and the input use the same recomputed J, so ⟨λ, J·v⟩ = ⟨Jᵀ·λ, v⟩. |
| LagrangianScleronomousR.ScleronomousRelation.constructor | kernel/src/modelingTools/LagrangianScleronomousR.cpp:50-59 | The relation stores h, its Jacobian and the Jacobian's derivative plugin, and starts with no J̇. |
| LagrangianScleronomousR.ScleronomousRelation.InitComponents | kernel/src/modelingTools/LagrangianScleronomousR.cpp:70-81 | A zero sizeY × sizeDS J̇ is allocated only when the J̇ plugin is set and J̇ is absent; otherwise J̇ stays. |
| LagrangianScleronomousR.ScleronomousRelation.ComputeH | kernel/src/modelingTools/LagrangianScleronomousR.cpp:83-97 | y becomes h(q, z) when the plugin is connected and is left unchanged otherwise. |
| LagrangianScleronomousR.ScleronomousRelation.ComputeJachq | kernel/src/modelingTools/LagrangianScleronomousR.cpp:98-108 | J is recomputed by its plugin at (q, z) and is unchanged without one. |
| LagrangianScleronomousR.ScleronomousRelation.ComputeDotJachq | kernel/src/modelingTools/LagrangianScleronomousR.cpp:110-131 | J̇ is recomputed by its plugin and is unchanged without one. A set plugin with no allocated J̇ raises. |
| LagrangianScleronomousR.ScleronomousRelation.ComputeOutput | kernel/src/modelingTools/LagrangianScleronomousR.cpp:149-178 | Only y(level) changes. Level 0 gives h(q, z), level 1 gives J·q1, level 2 gives J·q2 + J̇·q1, and any other level raises. Size mismatches and a missing J̇ raise, and what was already written is stated. |
| LagrangianScleronomousR.ScleronomousRelation.ComputeInput | kernel/src/modelingTools/LagrangianScleronomousR.cpp:180-196 | p(level) accumulates Jᵀ·λ(level) and is not overwritten. Nonconforming sizes raise and leave p unchanged. |
| LagrangianScleronomousR.ScleronomousRelation.ComputeJach | kernel/src/modelingTools/LagrangianScleronomousR.cpp:198-210 | J is recomputed at (q0, z) and J̇ at (q0, z, q1). It raises exactly when J̇ should be computed but is not allocated. |
| LagrangianScleronomousR.ScleronomousRelation.GetJachqName | kernel/src/modelingTools/LagrangianScleronomousR.cpp:212-218 | The result is the plugin's name when it is connected and "unamed" otherwise. |
| FclibInterface.ToRowMajorAt | Numerics/src/NonSmoothSolvers/FrictionContact/test-utils/fclib_interface.c:62-69 | x[i·size1 + j] = matrix0[j·size0 + i] for every entry (i, j). |
| FclibInterface.ToRowMajorRoundTrip | Numerics/src/NonSmoothSolvers/FrictionContact/test-utils/fclib_interface.c:62-69 | Converting the transposed layout back gives the original array, so the conversion loses nothing. |
| FclibInterface.RowPointersComplete | Numerics/src/NonSmoothSolvers/FrictionContact/test-utils/fclib_interface.c:64 | The row pointers start at 0 and end at m·n, and every row spans exactly n entries. |
| FclibInterface.DensePointersOutOfBounds | Numerics/src/NonSmoothSolvers/FrictionContact/test-utils/fclib_interface.c:59-70 | For every matrix, the final pointer store of the dense branch falls outside the m+1 slots of p. |
| FclibInterface.FillDense | Numerics/src/NonSmoothSolvers/FrictionContact/test-utils/fclib_interface.c:56-72 | Fresh p, i and x. i has nzmax = m·n slots, p holds the row pointers including p[m] = m·n, and x is the row-major copy of matrix0. |
| FclibInterface.ToFclibLocal | Numerics/src/NonSmoothSolvers/FrictionContact/test-utils/fclib_interface.c:28-87 | Fails iff the storage type is neither dense nor sparse. Otherwise spacedim = dimension, mu and q are aliased, s, R and V are absent, W is m × n with nz = −2, and its content depends on the storage type. |
| GamsLink.StrNCpy | numerics/src/tools/GAMSlink.c:128-146 | strncpy copies src and pads with NUL up to n characters, leaving the rest of the buffer. |
| GamsLink.StrLen | numerics/src/tools/GAMSlink.c:128-146 | strlen is the length of the C string in the buffer. |
| GamsLink.StrNCat | numerics/src/tools/GAMSlink.c:128-146 | strncat appends at most n characters of src to the C string. |
| GamsLink.DecimalRoundTrip | numerics/src/tools/GAMSlink.c:131 | The %d numeral of an integer reads back as that integer. |
| GamsLink.IterSuffix | numerics/src/tools/GAMSlink.c:130-131 | The suffix has at most 39 characters and contains no NUL. |
| GamsLink.IterSuffixFits | numerics/src/tools/GAMSlink.c:130-131 | When it fits, the suffix is "-i" + decimal(iter) + "-" + solverName, and iter can be read back from it. |
| GamsLink.TemplateStart | numerics/src/tools/GAMSlink.c:132-141 | The template's start, the base name or "fc3d_avi-condensed", is a C string. |
| GamsLink.LogStart | numerics/src/tools/GAMSlink.c:132-141 | The log's start, the base name or "fc3d_avi-condense-log", is a C string. |
| GamsLink.FilenameDatafiles | numerics/src/tools/GAMSlink.c:128-146 | template = start + suffix and log = start + suffix + ".log", each bounded to len − 1 characters and NUL-terminated. |
| GamsLink.CopyThenCat | numerics/src/tools/GAMSlink.c:128-146 | strncpy followed by a bounded strncat leaves start + src bounded to len − 1 characters. |
| GamsLink.BoundedCat | numerics/src/tools/GAMSlink.c:143-145 | strncat with the remaining room leaves the old string + src bounded to len − 1 characters. |
| GamsLink.FilenamesFit | numerics/src/tools/GAMSlink.c:143-145 | When the names fit, neither is cut. |
| GamsLink.GdxFileNames | numerics/src/tools/GAMSlink.c:188-193 | The gdx name is base + ".gdx" and the solution name is base + "_sol.gdx", each bounded to the buffer. |
| GamsLink.SolutionName | numerics/src/tools/GAMSlink.c:188-193 | Bounding base + "_sol" and then appending ".gdx" gives the same result as bounding base + "_sol.gdx". |
| GamsLink.Trunc | numerics/src/tools/GAMSlink.c:287-301 | The (int) cast truncates toward zero. |
| GamsLink.FirstFailure | numerics/src/tools/GAMSlink.c:207-282 | The result is the first failing step, or the number of steps iff every step succeeded. |
| GamsLink.SolveBookkeeping | numerics/src/tools/GAMSlink.c:150-301 | A creation failure returns 1 and any later failure returns −ETERMINATE; neither touches the parameters. On success the iteration count and time are added, the last model and solve statuses are stored, and (int)infos[1] is returned. |
| Builder.GeneratedFileRoundTrip | IO/tools/builder.py:27-28 | The header name determines its target, and every name of that form belongs to one. |
| Builder.OccursIff | IO/tools/builder.py:89-92 | The literal search succeeds iff the token is a substring. |
| Builder.UnwantedIff | IO/tools/builder.py:89-92 | A name is unwanted iff one of the listed tokens is a case-sensitive substring of it. |
| Builder.TypedefName | IO/tools/builder.py:95-99 | A global typedef's name is its declaration string without the leading "::". |
| Builder.TableKeys | IO/tools/builder.py:109-113 | The typedef table has an entry for exactly the aliased types. |
| Builder.TableLast | IO/tools/builder.py:109-113 | A type's entry is the name of the last typedef of that type. |
| Builder.TypedefTable | IO/tools/builder.py:109-113 | The loop fills the table the typedefs define. |
| Builder.ReplaceByTypedef | IO/tools/builder.py:116-121 | The typedef name is returned iff the type has one and it contains no '<'; otherwise the type itself. |
| Builder.SerializableBases | IO/tools/builder.py:162-168 | Exactly the bases that are serialisable and declared in the namespace are kept. |
| Builder.BaseNames | IO/tools/builder.py:170-175 | Each listed base is its typedef replacement, in order. |
| Builder.MembersIff | IO/tools/builder.py:180-192 | A member is written iff a variable of that name has no void in its type and is wanted. |
| Builder.MembersWanted | IO/tools/builder.py:180-192 | No written member is unwanted. |
| Builder.MacroChoice | IO/tools/builder.py:157-178 | The macro with bases is chosen iff some base qualifies, and it lists those bases; otherwise the plain macro. Both carry the name and the filtered members. |
| Builder.Generate | IO/tools/builder.py:130-192 | The main loop produces the macros and the with_base list that the declarations define. |
| Builder.Chain | IO/tools/builder.py:130-132 | The loop walks every class and then every typedef. |
| Builder.Step | IO/tools/builder.py:130-192 | Each declaration updates class_names, the macros and with_base in the way the loop body does. |
| Builder.ClassNamesFromDecls | IO/tools/builder.py:136-144 | Every entry of class_names is a class declared in the namespace. |
| Builder.ProcessedIsDeclared | IO/tools/builder.py:136-152 | A processed class is serialisable, wanted and declared in the namespace. |
| Builder.WithBaseConcrete | IO/tools/builder.py:147-155 | with_base holds only non-abstract, serialisable, wanted classes of the namespace. |
| Builder.RegisteredMembersWanted | IO/tools/builder.py:180-192 | No macro lists an unwanted member. |
| MoreauJeanGOSI.MoreauJeanGOSI.constructor | kernel/src/simulationTools/MoreauJeanGOSI.cpp:47-61 | θ is stored. A numeric γ is used and flagged; a NaN γ leaves γ = 1 unflagged. The activation γ is the given one or 1/2. |
| MoreauJeanGOSI.MoreauJeanGOSI.AddInteractionInIndexSet | kernel/src/simulationTools/MoreauJeanGOSI.cpp:1381-1403 | Activation holds iff y0 + γ·h·y1 ≤ 0, with γ the constructor's γ or 1/2; with γ·h ≥ 0 a closed, approaching contact is activated and an open, separating one is not. |
| MoreauJeanGOSI.MoreauJeanGOSI.RemoveInteractionInIndexSet | kernel/src/simulationTools/MoreauJeanGOSI.cpp:1381-1426 | Deactivation (y0 + γh·y1 > 0) holds exactly when activation does not. |
| MoreauJeanGOSI.MoreauJeanGOSI.UpdatePosition | kernel/src/simulationTools/MoreauJeanGOSI.cpp:1136-1153 | q := qold + hθ·v + h(1−θ)·vold entrywise; v, vold and qold are unchanged. |
| MoreauJeanGOSI.LagrangianW | kernel/src/simulationTools/MoreauJeanGOSI.cpp:294-315 | W = M − hθ·C − h²θ²·K entrywise; an absent C or K adds nothing. |
| MoreauJeanGOSI.LinearTIDSW | kernel/src/simulationTools/MoreauJeanGOSI.cpp:126-143 | W = M + hθ·C + h²θ²·K entrywise; an absent C or K adds nothing. |
| MoreauJeanGOSI.StiffnessTimesT | kernel/src/simulationTools/MoreauJeanGOSI.cpp:317-341 | K·T exists exactly when K does, is n×n, and entry (i, j) is row i of K dotted with column j of T. |
| MoreauJeanGOSI.NewtonEulerW | kernel/src/simulationTools/MoreauJeanGOSI.cpp:317-341 | W = M − hθ·C − h²θ²·(K·T) entrywise. |
| MoreauJeanGOSI.MoreauJeanGOSI.ComputeW | kernel/src/simulationTools/MoreauJeanGOSI.cpp:279-346 | W is recomputed for nonlinear Lagrangian and Newton–Euler systems and stays for linear time-invariant ones; other types raise. |
| MoreauJeanGOSI.EliminatePrescribed | kernel/src/simulationTools/MoreauJeanGOSI.cpp:252-271 | The in-place loop produces W with prescribed rows and columns eliminated, and the columns saved in order. |
| MoreauJeanGOSI.EliminatedEntries | kernel/src/simulationTools/MoreauJeanGOSI.cpp:252-271 | After elimination, entries in a prescribed row or column are zero off the diagonal; all other entries are unchanged. |
| MoreauJeanGOSI.SavedColumnEntries | kernel/src/simulationTools/MoreauJeanGOSI.cpp:252-271 | Saved column c is the original column idx[c], zeroed at the rows eliminated before it. |
| MoreauJeanGOSI.LaterSavedColumnZeroAtEarlierRow | kernel/src/simulationTools/MoreauJeanGOSI.cpp:252-271 | A later saved column is zero at an earlier prescribed row. |
| MoreauJeanGOSI.SavedColumnsVanishAtEarlierRows | kernel/src/simulationTools/MoreauJeanGOSI.cpp:252-271 | For distinct indices, every saved column vanishes at all earlier prescribed rows. |
| MoreauJeanGOSI.SavedColumnDiagonal | kernel/src/simulationTools/MoreauJeanGOSI.cpp:257-264 | Each saved column keeps the original diagonal entry at its own row. |
| MoreauJeanGOSI.MoreauJeanGOSI.ComputeWBoundaryConditions | kernel/src/simulationTools/MoreauJeanGOSI.cpp:212-276 | W becomes the eliminated matrix and WBC the saved columns of the old W. Other types raise and change nothing. |
| MoreauJeanGOSI.MoreauJeanGOSI.InitWBoundaryConditions | kernel/src/simulationTools/MoreauJeanGOSI.cpp:167-209 | WBC is allocated dim × number of prescribed indices and filled. An existing WBC, or an unsupported type, raises. |
| MoreauJeanGOSI.MoreauJeanGOSI.InitW | kernel/src/simulationTools/MoreauJeanGOSI.cpp:96-164 | Raises for a null system or descriptor, a system not owned by the integrator, an existing W, or an unsupported type. Otherwise W is created for the type, and boundary conditions are eliminated when present; the state is untouched. |
| MoreauJeanGOSI.MoreauJeanGOSI.ComputeFreeState | kernel/src/simulationTools/MoreauJeanGOSI.cpp:805-967 | vfree = v − W⁻¹R (nonlinear) or vold − W⁻¹R (linear time-invariant). For an exact solver, W·(v − vfree) = R. |
| MoreauJeanGOSI.FreeVelocityDefect | kernel/src/simulationTools/MoreauJeanGOSI.cpp:864-875 | If x solves W·x = R, then vfree = v − x satisfies W·(v − vfree) = R. |
| MoreauJeanGOSI.MassResidu | kernel/src/simulationTools/MoreauJeanGOSI.cpp:451-480 | residuFree = M(v − vold) − h(1−θ)·f_old − hθ·f(t, q, v) entrywise. |
| MoreauJeanGOSI.LinearTIDSResidu | kernel/src/simulationTools/MoreauJeanGOSI.cpp:568-597 | The linear time-invariant residual has one entry per velocity component. |
| MoreauJeanGOSI.LinearTIDSResiduEntries | kernel/src/simulationTools/MoreauJeanGOSI.cpp:568-597 | Each entry is h·C·vold + h·K·qold + h²θ·K·vold − h(1−θ)·fExt_start − hθ·fExt_end, with absent terms omitted. |
| MoreauJeanGOSI.BCResiduCorrectionAtPrescribed | kernel/src/simulationTools/MoreauJeanGOSI.cpp:482-505 | After the boundary-condition loop, the entry at a prescribed index is −δ_c times its saved column's entry. |
| MoreauJeanGOSI.BCResiduAtPrescribedIndex | kernel/src/simulationTools/MoreauJeanGOSI.cpp:490-504 | With the saved diagonal d, that entry is −δ_c·d. |
| MoreauJeanGOSI.CorrectResiduForBC | kernel/src/simulationTools/MoreauJeanGOSI.cpp:482-505 | The first boundary-condition loop adds, for each condition, the saved column times its velocity defect. |
| MoreauJeanGOSI.FixupFreeForBC | kernel/src/simulationTools/MoreauJeanGOSI.cpp:516-536 | The second loop writes −WBC_c[idx_c]·δ_c at each prescribed index. |
| MoreauJeanGOSI.BCFreeFixupEntries | kernel/src/simulationTools/MoreauJeanGOSI.cpp:516-536 | Unprescribed entries of the free workspace are unchanged; a prescribed entry holds its condition's value. |
| MoreauJeanGOSI.WriteAtEntries | kernel/src/simulationTools/MoreauJeanGOSI.cpp:516-536 | With distinct indices every write survives, and an index that is never written keeps its value. |
| MoreauJeanGOSI.MoreauJeanGOSI.WriteResiduFree | kernel/src/simulationTools/MoreauJeanGOSI.cpp:421-505 | residuFree is the system's residual with the boundary conditions applied. |
| MoreauJeanGOSI.MoreauJeanGOSI.WriteFree | kernel/src/simulationTools/MoreauJeanGOSI.cpp:507-536 | free = residuFree − p(1), with the prescribed entries fixed up afterwards. |
| MoreauJeanGOSI.MoreauJeanGOSI.ComputeSystemResidu | kernel/src/simulationTools/MoreauJeanGOSI.cpp:421-797 | For a supported type, writes both workspaces and returns the system's norm (0 for linear time-invariant). An unsupported type fails and writes nothing. |
| MoreauJeanGOSI.MoreauJeanGOSI.ComputeResidu | kernel/src/simulationTools/MoreauJeanGOSI.cpp:382-803 | Succeeds iff every system is supported, and then returns the running maximum of the per-system norms. |
| MoreauJeanGOSI.MaxResiduBounds | kernel/src/simulationTools/MoreauJeanGOSI.cpp:799-802 | The maximum is ≥ 0 and bounds every norm. |
| MoreauJeanGOSI.MaxResiduAttained | kernel/src/simulationTools/MoreauJeanGOSI.cpp:799-802 | The maximum is 0 or one of the norms. |
| MoreauJeanGOSI.ZeroPrescribed | kernel/src/simulationTools/MoreauJeanGOSI.cpp:1246-1251 | The loop zeroes the impulse exactly at the prescribed indices. |
| MoreauJeanGOSI.ReactionsToBC | kernel/src/simulationTools/MoreauJeanGOSI.cpp:1264-1286 | reaction[c] = −⟨WBC_c, v⟩, plus p[idx_c] when an impulse was applied. |
| MoreauJeanGOSI.Impulse | kernel/src/simulationTools/MoreauJeanGOSI.cpp:1240-1258 | An impulse is used iff level ≠ LEVELMAX and p(level) exists and is nonempty. |
| MoreauJeanGOSI.CorrectedVelocityDefect | kernel/src/simulationTools/MoreauJeanGOSI.cpp:1240-1258 | For an exact solver, the corrected velocity satisfies W·(v − vfree) = p′, where p′ is p zeroed at the prescribed indices. |
| MoreauJeanGOSI.MoreauJeanGOSI.UpdateState | kernel/src/simulationTools/MoreauJeanGOSI.cpp:1206-1378 | v = vfree + W⁻¹p′, or vfree without an impulse. The reactions follow ReactionsToBC; Lagrangian systems get the θ-blended position. Unsupported types raise and change nothing. |
| MoreauJeanGOSI.NSLContrib | kernel/src/simulationTools/MoreauJeanGOSI.cpp:1009-1056 | Only Lagrangian and Newton–Euler relations are rewritten. Newton impact sets the first size entries to e·y_k, Newton impact friction sets entry 0, equality and complementarity laws change nothing, and other laws fail. |
| IntegratorCommon.UpdateSystems | kernel/src/simulationTools/LsodarOSI.cpp:397-417 | Fails with the level iff it is neither 1 nor 2. Otherwise there is one update per system, in order: the post-impact velocities at level 1, the update at the time at level 2. |
| IntegratorCommon.ScalarTolAsWrittenDropsAtol | kernel/src/simulationTools/LsodarOSI.cpp:118-123 | As written, atol(1) never receives a requested absolute tolerance that differs from the relative one. |
| IntegratorCommon.ScalarTolStoresBoth | kernel/src/simulationTools/LsodarOSI.cpp:118-123 | Corrected, rtol(1) and atol(1) receive their values and the other entries are kept. |
| IntegratorCommon.NewZeroInts | kernel/src/simulationTools/LsodarOSI.cpp:144-158 | A fresh integer array of n zeros. |
| IntegratorCommon.NewZeroReals | kernel/src/simulationTools/LsodarOSI.cpp:144-158 | A fresh real array of n zeros. |
| BlockVectors.SplitConcat | kernel/src/simulationTools/LsodarOSI.cpp:162-166 | Cutting the concatenated blocks at their lengths gives the blocks back. |
| BlockVectors.ConcatSplit | kernel/src/simulationTools/LsodarOSI.cpp:162-166 | Concatenating the pieces of a cut gives the flat vector back. |
| BlockVectors.Gather | Kernel/src/simulationTools/Hem5.cpp:238-250 | Reading the block vector gives the blocks' contents one after the other. |
| BlockVectors.Scatter | Kernel/src/simulationTools/Hem5.cpp:238-250 | Assigning a flat vector gives each block its slice. |
| LsodarOSI.WorkSizesHoldOptionSlots | kernel/src/simulationTools/LsodarOSI.cpp:260-263 | lrw = 22 + neq·max(16, neq+9) + 3ng covers both DLSODAR minima and the option slots rwork(6,7); liw covers iwork(12). |
| LsodarOSI.RealWorkSizeMonotone | kernel/src/simulationTools/LsodarOSI.cpp:260 | The real work size grows with neq and ng. |
| LsodarOSI.StateBlocksShape | kernel/src/simulationTools/LsodarOSI.cpp:218-229 | Each Lagrangian system contributes q and velocity, and each other system contributes x; no block comes from elsewhere. |
| LsodarOSI.LsodarOSI.constructor | kernel/src/simulationTools/LsodarOSI.cpp:73-79 | All nine parameter slots are zero and two past states are kept. |
| LsodarOSI.LsodarOSI.SetTolArrays | kernel/src/simulationTools/LsodarOSI.cpp:81-103 | itol is recorded and the given arrays become the tolerances. |
| LsodarOSI.LsodarOSI.SetMinMaxStepSizes | kernel/src/simulationTools/LsodarOSI.cpp:105-110 | iopt = 1, and only rwork(6) and rwork(7) change. |
| LsodarOSI.LsodarOSI.SetMaxNstep | kernel/src/simulationTools/LsodarOSI.cpp:112-116 | iopt = 1, and only iwork(6) changes. |
| LsodarOSI.LsodarOSI.SetTolAsWritten | kernel/src/simulationTools/LsodarOSI.cpp:118-123 | As written, itol is set and newRtol lands in both rtol(1) and atol(1). |
| LsodarOSI.LsodarOSI.SetTol | kernel/src/simulationTools/LsodarOSI.cpp:118-123 | Corrected, rtol(1) = newRtol and atol(1) = newAtol. |
| LsodarOSI.LsodarOSI.SetMaxOrder | kernel/src/simulationTools/LsodarOSI.cpp:125-130 | iopt = 1, and only iwork(8) and iwork(9) change. |
| LsodarOSI.LsodarOSI.UpdateData | kernel/src/simulationTools/LsodarOSI.cpp:132-160 | Fresh rtol and atol of size neq, iwork of size liw, rwork of size lrw and jroot of size ng; all but rtol are zeroed. |
| LsodarOSI.LsodarOSI.FillXWork | kernel/src/simulationTools/LsodarOSI.cpp:162-166 | The systems' blocks receive their slices, and reading them back gives x. |
| LsodarOSI.LsodarOSI.CollectStateBlocks | kernel/src/simulationTools/LsodarOSI.cpp:218-229 | The blocks are inserted in the order of the systems. |
| LsodarOSI.LsodarOSI.Initialize | kernel/src/simulationTools/LsodarOSI.cpp:211-305 | xWork holds the state blocks. The parameters are [neq, ng, 1, 1, 1, 0, lrw, liw, 2], the work spaces are zeroed, and the defaults are in rtol(1) and atol(1). |
| LsodarOSI.LsodarOSI.SetProblemSizes | kernel/src/simulationTools/LsodarOSI.cpp:234-266 | Sets the sizes, itol = itask = istate = 1, iopt = 0, the work sizes and jt = 2. |
| LsodarOSI.LsodarOSI.ClearOptionalInputs | kernel/src/simulationTools/LsodarOSI.cpp:279-287 | iwork(5..9) become zero and nothing else changes. |
| LsodarOSI.LsodarOSI.StoreDefaultTolerances | kernel/src/simulationTools/LsodarOSI.cpp:289-290 | The defaults go into rtol(1) and atol(1) only. |
| LsodarOSI.LsodarOSI.Launch | kernel/src/simulationTools/LsodarOSI.cpp:333-361 | DLSODAR gets the current arguments, with a restart istate of 3 passed as 1. intData(5) receives the returned istate, and rwork, iwork and jroot receive what DLSODAR left in them. The blocks hold the state DLSODAR passed to the last callback it made (f, g or jacobianf copy it in through fillXWork), and keep their contents when it made none. |
| LsodarOSI.LsodarOSI.Called | kernel/src/simulationTools/LsodarOSI.cpp:162-199 | The blocks receive, cut to their sizes, the state the last callback got; with no callback they are kept. |
| LsodarOSI.LsodarOSI.Accept | kernel/src/simulationTools/LsodarOSI.cpp:379-392 | The integrated state goes back into the blocks and the counters are read. |
| LsodarOSI.LsodarOSI.Integrate | kernel/src/simulationTools/LsodarOSI.cpp:307-394 | A restart istate of 3 reaches DLSODAR as 1. Afterwards intData(5), rwork, iwork and jroot hold what DLSODAR returned. The call fails iff the returned istate is negative; then the counters are kept and the blocks hold the state the last callback received (or their old contents when there was none), since the raise comes before the copy-back. Otherwise the blocks receive the state, the reached time, tout and istate are returned, and the counters are read. |
| LsodarOSI.FreeOutputOf | kernel/src/simulationTools/LsodarOSI.cpp:450-576 | computeFreeOutput leaves y the same length. |
| LsodarOSI.FreeOutputStatus | kernel/src/simulationTools/LsodarOSI.cpp:487-574 | Succeeds iff the problem is smooth acceleration or impact, the relation is Lagrangian, a rheonomous relation is used only on the time-stepping problem, and impact has a known law. A wrong problem or relation leaves y. |
| LsodarOSI.ProjectedOutput | kernel/src/simulationTools/LsodarOSI.cpp:511-521 | With a C matrix the first lawSize entries become the rows of C dotted with Xfree; without one y is unchanged. |
| LsodarOSI.WithRelationTerm | kernel/src/simulationTools/LsodarOSI.cpp:535-564 | Adds hDot for a rheonomous relation, or dotjacqhXqdot for a scleronomous one at smooth acceleration, to the first lawSize entries; nothing otherwise. |
| LsodarOSI.FreeOutputEntries | kernel/src/simulationTools/LsodarOSI.cpp:429-574 | On success the first lawSize entries are C·Xfree plus the relation's term plus e·yOld for a Newton impact; the rest are untouched. |
| LsodarOSI.StorePrefix | kernel/src/simulationTools/LsodarOSI.cpp:521 | y[..|v|] is overwritten with v. |
| LsodarOSI.AddToPrefix | kernel/src/simulationTools/LsodarOSI.cpp:550-561 | v is added to y[..|v|]. |
| LsodarOSI.ComputeFreeOutput | kernel/src/simulationTools/LsodarOSI.cpp:450-576 | The in-place computation leaves the output and the status of FreeOutputOf. |
| Hem5.WorkSpace | Kernel/src/simulationTools/Hem5.cpp:148-210 | A mode above 3 fails as sparse-not-implemented; otherwise the sizes follow. |
| Hem5.DenseWorkSpace | Kernel/src/simulationTools/Hem5.cpp:175-209 | In dense mode, LWK = 19 + 27NQ + 28NV + 5(NV+NL) + 4NZA + LL and LIWK = 2(95 + …), so LWK ≥ 19 and LIWK ≥ 190. |
| Hem5.MaxNstepAsWrittenHitsProjectionSwitch | Kernel/src/simulationTools/Hem5.cpp:618-623 | As written, the maximal step count is never set and the projection switch receives it. |
| Hem5.MaxNstepSetsMaxSteps | Kernel/src/simulationTools/Hem5.cpp:618-619 | Corrected, only IWK(11) receives the value. |
| Hem5.FirstNonLagrangian | Kernel/src/simulationTools/Hem5.cpp:301-321 | The loops stop at the first system that is not Lagrangian. |
| Hem5.NumberOfConstraints | Kernel/src/simulationTools/Hem5.cpp:525-540 | One constraint per interaction of index set 2. |
| Hem5.FprobUntaskedKept | Kernel/src/simulationTools/Hem5.cpp:298-443 | AM is left as it was unless IFCN asks for the mass, F unless it asks for the forces, and q̇ unless it asks for q̇. |
| Hem5.TasksOfFullEvaluation | Kernel/src/simulationTools/Hem5.cpp:298-410 | Only IFCN = 1 asks for the mass, forces and q̇ together; IFCN = 0 asks only for u̇. |
| Hem5.MassMatrixEntry | Kernel/src/simulationTools/Hem5.cpp:298-329 | Entry (i, j) of system k's diagonal block of AM holds M_k(i, j), column-major. |
| Hem5.MassMatrixOffBlocks | Kernel/src/simulationTools/Hem5.cpp:298-329 | Entries outside every system's block keep what AM held. |
| Hem5.WriteMassBlock | Kernel/src/simulationTools/Hem5.cpp:309-315 | The nested loops write one system's block. |
| Hem5.FillMass | Kernel/src/simulationTools/Hem5.cpp:298-329 | Succeeds iff every system is Lagrangian; AM receives the blocks of the systems before the first non-Lagrangian one. |
| Hem5.MassFillAsWrittenSingleSystem | Kernel/src/simulationTools/Hem5.cpp:300-317 | For a single system of size NV, the as-written loop fills AM exactly as the corrected one. |
| Hem5.MassFillAsWrittenOutOfBounds | Kernel/src/simulationTools/Hem5.cpp:300-317 | For any system after the first, the as-written loop leaves AM. |
| Hem5.MassFillAsWrittenTwoSystems | Kernel/src/simulationTools/Hem5.cpp:300-317 | With two one-dof systems, the first system's loop reads outside its 1 × 1 mass and the second writes AM[6] in an array of 4. |
| Hem5.FillForces | Kernel/src/simulationTools/Hem5.cpp:330-356 | F[..NV] receives the forces iff every system is Lagrangian; otherwise F is unchanged. |
| Hem5.FillQdot | Kernel/src/simulationTools/Hem5.cpp:410-443 | q̇ = v over the slices of the systems before the first non-Lagrangian one; the status reports the stop. |
| Hem5.FprobStatus | Kernel/src/simulationTools/Hem5.cpp:266-446 | fprob raises iff a loop it runs meets a non-Lagrangian system, with the error of that loop. |
| Hem5.FprobFailureKeepsOutputs | Kernel/src/simulationTools/Hem5.cpp:266-446 | A mass or force failure leaves F and q̇ unchanged. |
| Hem5.FprobFullEvaluation | Kernel/src/simulationTools/Hem5.cpp:266-446 | With Lagrangian systems only, IFCN = 1 fills every mass block, F[..NV] and q̇[..Σdim], and nothing else. |
| Hem5.Evaluate | Kernel/src/simulationTools/Hem5.cpp:266-446 | The in-place evaluation leaves AM, F and q̇ as FprobEffect says. |
| Hem5.IntDataFor | Kernel/src/simulationTools/Hem5.cpp:148-210 | NQ, NV, NU = 0, NL, itol = iout = 0 and dense mode, with LWK ≥ 19 and LIWK ≥ 190. |
| Hem5.StoreMultipliers | Kernel/src/simulationTools/Hem5.cpp:747-758 | Each interaction's λ(2)[0] receives its value, in order, and nothing else changes. |
| Hem5.Hem5.constructor | Kernel/src/simulationTools/Hem5.cpp:115-121 | All nine parameter slots are zero, two past states are kept, and nothing is allocated. |
| Hem5.Hem5.SetTolArrays | Kernel/src/simulationTools/Hem5.cpp:123-129 | itol is recorded and the given arrays become the tolerances. |
| Hem5.Hem5.SetTolAsWritten | Kernel/src/simulationTools/Hem5.cpp:130-136 | As written, newRtol lands in both rtol(1) and atol(1). |
| Hem5.Hem5.SetTol | Kernel/src/simulationTools/Hem5.cpp:130-136 | Corrected, rtol(1) = newRtol and atol(1) = newAtol. |
| Hem5.Hem5.SetMaxStepSize | Kernel/src/simulationTools/Hem5.cpp:138-141 | Only WK(6) changes. |
| Hem5.Hem5.SetMaxNstepAsWritten | Kernel/src/simulationTools/Hem5.cpp:143-146 | As written, the value is stored in IWK(12). |
| Hem5.Hem5.SetMaxNstep | Kernel/src/simulationTools/Hem5.cpp:143-146 | Corrected, the value is stored in IWK(11). |
| Hem5.Hem5.UpdateIntData | Kernel/src/simulationTools/Hem5.cpp:148-210 | The parameters are those of IntDataFor for the gathered sizes and the number of constraints. |
| Hem5.Hem5.UpdateData | Kernel/src/simulationTools/Hem5.cpp:212-236 | Fresh rtol and atol of size NQ, iwork of size LIWK and rwork of size LWK; all but rtol are zeroed. |
| Hem5.Hem5.FillQWork | Kernel/src/simulationTools/Hem5.cpp:238-243 | The position blocks receive their slices, and reading them back gives q. |
| Hem5.Hem5.FillVWork | Kernel/src/simulationTools/Hem5.cpp:245-250 | The velocity blocks receive their slices, and reading them back gives v. |
| Hem5.Hem5.Initialize | Kernel/src/simulationTools/Hem5.cpp:457-509 | The systems' vectors are inserted in order up to the first non-Lagrangian system, which raises. On success the step guess is 1e-3. |
| Hem5.Hem5.Fprob | Kernel/src/simulationTools/Hem5.cpp:266-446 | q and v are scattered into the blocks. When the force loop runs, the force blocks receive the computed forces; otherwise they are kept. AM, F and q̇ are then set as FprobEffect says. |
| Hem5.Hem5.ComputeForces | Kernel/src/simulationTools/Hem5.cpp:330-351 | When fprob reaches the force loop, the force blocks of the Lagrangian systems before the first other one receive the computed forces. Otherwise, and for q and v always, the contents are kept. |
| Hem5.Hem5.ResizeLambda | Kernel/src/simulationTools/Hem5.cpp:592-597 | The multiplier buffer is allocated as zeros or resized to NL, keeping its leading entries; the entries it gains are zero. |
| Hem5.Hem5.SetSolverOptions | Kernel/src/simulationTools/Hem5.cpp:605-637 | WK(1) is the rounding unit; WK(2..4) and WK(6..8) are 0; IWK(11..13) are 0; IWK(14) is the mode; IWK(15) = IWK(16) = 1; nothing else changes. |
| Hem5.Hem5.StoreDefaultTolerances | Kernel/src/simulationTools/Hem5.cpp:653-654 | The defaults go into rtol(1) and atol(1) only. |
| Hem5.Hem5.PreparedDiscardsSettings | Kernel/src/simulationTools/Hem5.cpp:603-623 | After integrate's preparation, the maximal step size, maximal step count and projection switch are zero whatever was set before. |
| Hem5.Hem5.Prepare | Kernel/src/simulationTools/Hem5.cpp:564-654 | Before the call, the parameters, fresh zeroed work spaces, solver options, default tolerances and resized multiplier buffer are in place. |
| Hem5.Hem5.SetDefaults | Kernel/src/simulationTools/Hem5.cpp:605-654 | On zeroed work spaces: the rounding unit, IWK(15) = IWK(16) = 1 and the default tolerances. |
| Hem5.Hem5.Launch | Kernel/src/simulationTools/Hem5.cpp:656-713 | HEM5 is called on the current arguments, including the length of the force vectors. The returned vectors, work arrays and fprob trace fit the blocks, which are only read here; fprob's writes into them are applied by Called. |
| Hem5.Hem5.Called | Kernel/src/simulationTools/Hem5.cpp:285-345 | fprob's last writes reach the blocks: q and v receive the last state it was called with, the force vectors its last computed forces; a and the multipliers, and the tolerances, are kept. |
| Hem5.AfterFprob | Kernel/src/simulationTools/Hem5.cpp:285-345 | The blocks after fprob's writes keep their lengths, a and the multipliers; without any fprob call they are unchanged. |
| Hem5.FailureKeepsFprobWrites | Kernel/src/simulationTools/Hem5.cpp:713-736 | When HEM5 fails, q and v hold the last state fprob received and the force vectors its last forces, since the raise comes before the copy-back; a and the multipliers are kept. |
| Hem5.Hem5.StoreWork | Kernel/src/simulationTools/Hem5.cpp:691-713 | rwork and iwork receive in place what HEM5 left in them; the parameters, tolerances, blocks and multipliers are kept. |
| Hem5.Hem5.Record | Kernel/src/simulationTools/Hem5.cpp:691-713 | The step guess and idid are recorded, and the multipliers when there are constraints. |
| Hem5.Hem5.StoreState | Kernel/src/simulationTools/Hem5.cpp:734-736 | q, v and a go back into their blocks. |
| Hem5.Hem5.Accept | Kernel/src/simulationTools/Hem5.cpp:734-758 | The state goes back into the blocks and λ(2)[0] of each interaction receives its multiplier. |
| Hem5.Hem5.Begin | Kernel/src/simulationTools/Hem5.cpp:564-688 | The prepared call gathers the blocks. xl is present iff there are constraints, and then it is the resized buffer. |
| Hem5.Hem5.Snapshot | Kernel/src/simulationTools/Hem5.cpp:734-758 | The snapshot of q, v, a and the multipliers has the blocks' lengths. |
| Hem5.Hem5.Conclude | Kernel/src/simulationTools/Hem5.cpp:691-761 | The blocks first receive fprob's writes, and rwork and iwork hold HEM5's work arrays whatever idid says. A negative idid raises before the copy-back, so the blocks keep what fprob left. Otherwise the blocks receive the returned vectors and the multipliers their values. |
| Hem5.Hem5.Run | Kernel/src/simulationTools/Hem5.cpp:691-761 | HEM5 gets the call the prepared state makes. The step guess, idid, rwork and iwork then hold what it returned, the parameters and tolerances are kept. On failure the blocks hold what fprob left; on success q, v, a and the multipliers receive the returned values and the force vectors keep fprob's last forces. |
| Hem5.Hem5.Integrate | Kernel/src/simulationTools/Hem5.cpp:542-763 | The whole of integrate. The parameters and tolerances are prepared and HEM5 gets the gathered state with freshly prepared work arrays. The work arrays then hold what HEM5 left in them. A negative idid is a failure, and then the blocks hold what fprob last wrote into them; otherwise q, v, a and the multipliers are written back and the force vectors keep fprob's last forces. |

## Left out

- I/O, printing, `display()` and DEBUG output are not modelled.
- DLSODAR, HEM5 and the LU solve (`PLUForwardBackwardInPlace`) are not part of this model. They are function parameters: `Dlsodar`, `Hem5Solver` and `Solver`.
- The `global_object` / `hem5_global_object` callback singletons and the bodies of the f, g, jacobianfx, computeRhs and solout callbacks are not modelled: the right-hand sides, Jacobians and constraint values they compute stay inside the solver parameters. What the callbacks leave in the blocks is part of the solver's return (LsodarReturn.evaluated, Hem5Return.fprob) and is applied to the blocks.
- The norm of computeResidu is a `norm` parameter; IEEE rounding is not modelled.
- MoreauJeanGOSI `initialize` (64-94), `integrate` (1058-1126), the Newton-loop preparation functions and `display` are not modelled; they walk the topology graph and call the simulation.
- Newton–Euler `updatePosition`, `computeT` and `normalizeq` are not modelled: they are quaternion arithmetic with square roots.
- MoreauJeanGOSI.MoreauJeanGOSI.UpdateState: for a Newton–Euler system the new position is not specified, because the quaternion update is not modelled.
- MoreauJeanGOSI.MoreauJeanGOSI.UpdateState: the relative-convergence test of updateState (1211-1214, 1290-1301) is not modelled: the simulation's relative-convergence flag it sets (setRelativeConvergenceCriterionHeld) and the `local_buffer` workspace it overwrites with the new velocity are left out.
- MoreauJeanGOSI.MoreauJeanGOSI.ComputeResidu: the per-system norms are a ghost result, so the method's contract names them without returning them.
- The per-system `computePostImpactVelocity` and `update(time)` of LsodarOSI and Hem5 `updateState` are calls into the simulation. IntegratorCommon.UpdateSystems records which of them each system gets, not what they do. Hem5's `updateState` is the same at Kernel/src/simulationTools/Hem5.cpp:766-786.
- LsodarOSI.ComputeFreeOutput: `computedotjacqhXqdot` and `hDot` are taken as inputs, and the write-back of z is not modelled.
- LsodarOSI.LsodarOSI.Initialize: requires at least one state component. With neq = 0 the default tolerances would be written into empty arrays.
- Hem5.Hem5.Prepare: requires at least one position component, for the same reason.
- Hem5's `fprob` branches for G, GP, GT, GPP and u̇ are not modelled: GPP only prints; G, GP and GT reach their assertion only inside the loop over index set 2, so they do nothing when that set is empty and run computeOutput/computeJach when assertions are compiled out; the u̇ loop reads an uninitialised index. Their task flags are modelled in Hem5.Tasks.
- Hem5.Hem5.Integrate: an exception that fprob raises inside HEM5 (a system that is not Lagrangian) is not modelled; HEM5 is taken to return.
- Hem5.Hem5.Fprob: `computeForces` and `computeMass` are calls into the systems. The forces they compute are a parameter, and the masses are the systems' given matrices.
- Hem5 `computeFreeOutput` (819-935) and the `_uWork` / `_lambdaWork` blocks are not modelled.
- LagrangianScleronomousR: `computedotjacqhXqdot` (133-147) and the z write-back are not modelled.
- LagrangianScleronomousR.ScleronomousRelation.ComputeDotJachq: an absent J̇ with a set plugin is a null dereference in the code. Here it is the error NullDotJacobian.
- The relation's plugins are Dafny functions, not loaded plugins.
- FclibInterface.ToFclibLocal: `exit(EXIT_FAILURE)` on an unknown storage type becomes the failure UnknownStorageType.
- FclibInterface.ToFclibLocal: the array i of the dense branch is allocated but never written, so its contents are not specified.
- `fclib_write_local` and the sparse-block conversion are not modelled; the sparse branch takes the converted SparseMatrix as given.
- The gdx and GAMS API calls, `cp()`, printf and the option setters of `SN_gams_solve` are not modelled. Their outcomes are the statuses in GamsCalls; `idToName` is a solverName parameter.
- GamsLink.FilenameDatafiles: requires the start string to be shorter than len. Otherwise strncpy leaves no terminating NUL and the following strncat is undefined behaviour in C.
- GamsLink.GdxFileNames: requires the base name to be shorter than the buffer, for the same reason.
- Hem5.WorkSpace: the sizes are unbounded integers. The C `int` arithmetic of updateIntData (Kernel/src/simulationTools/Hem5.cpp:190-209, with 4·NV² and 4·(NV+NL)² terms) can overflow for very large systems; that overflow is not modelled.
- Hem5.IntDataFor: unbounded for the same reason.
- LsodarOSI.RealWorkSize: lrw = 22 + neq·max(16, neq+9) + 3·ng is computed in C `int` (kernel/src/simulationTools/LsodarOSI.cpp:260); overflow for very large neq is not modelled.
- LsodarOSI.IntWorkSize: liw = 20 + neq (line 263) is unbounded here as well.
- GamsLink.SolveBookkeeping: `iparam[TOTAL_ITER] += (int)infos[2]` (numerics/src/tools/GAMSlink.c:287) is an unbounded sum here; C `int` overflow is not modelled.
- LsodarOSI.LsodarOSI.SetTolAsWritten, LsodarOSI.LsodarOSI.SetTol, Hem5.Hem5.SetTolAsWritten and Hem5.Hem5.SetTol: the installed rtol and atol arrays are taken to be distinct; when setTol(itol, rtol, atol) installs one array for both, the scalar setter's two stores hit the same slot, and that aliased case is not modelled.
- Hem5.Hem5.Initialize: the `initForces()` call for a Lagrangian system without a forces vector (Kernel/src/simulationTools/Hem5.cpp:484-487) is not modelled; every system's forces block is taken as already allocated.
- Cmp.NewCmp: the key type U of the template is fixed to `int`, so only integer keys compared with `<` are modelled.
- builder.py: pygccxml parsing, file writing, the text of the `register_type` lines and command-line parsing are not modelled. The parsed declarations are data.

## Findings

| source | as written | input that shows it | evidently intended | confidence | as-written member | corrected member |
|---|---|---|---|---|---|---|
| kernel/src/simulationTools/LsodarOSI.cpp:118-123 | the scalar setTol stores newRtol into atol(1) | setTol(1, 1e-6, 1e-8): atol(1) becomes 1e-6 | atol(1) = newAtol | not executed | LsodarOSI.LsodarOSI.SetTolAsWritten, IntegratorCommon.ScalarTolAsWrittenDropsAtol | LsodarOSI.LsodarOSI.SetTol, IntegratorCommon.ScalarTolStoresBoth |
| Kernel/src/simulationTools/Hem5.cpp:130-136 | the scalar setTol stores newRtol into atol(1) | setTol(1, 1e-6, 1e-8): atol(1) becomes 1e-6 | atol(1) = newAtol | not executed | Hem5.Hem5.SetTolAsWritten, IntegratorCommon.ScalarTolAsWrittenDropsAtol | Hem5.Hem5.SetTol, IntegratorCommon.ScalarTolStoresBoth |
| Numerics/src/NonSmoothSolvers/FrictionContact/test-utils/fclib_interface.c:59-70 | p has m+1 entries but the last store is p[m+1] | any dense matrix, e.g. 1 × 1: p[2] is written in an array of 2 | p[m] = m·n | not executed | FclibInterface.DensePointersOutOfBounds | FclibInterface.FillDense |
| Kernel/src/simulationTools/Hem5.cpp:143-146 | setMaxNstep writes iwork[11], the projection switch IWK(12) | setMaxNstep(500): IWK(11) unchanged, IWK(12) = 500 | IWK(11) = maximal number of steps | not executed | Hem5.MaxNstepAsWrittenHitsProjectionSwitch | Hem5.MaxNstepSetsMaxSteps |
| Kernel/src/simulationTools/Hem5.cpp:309-316 | the mass loop runs ii and jj from pos to pos+NV for every system | two 1-dof systems, NV = 2: the first reads M(1, 1) of its 1 × 1 mass; the second writes AM[6] of 4 entries | each system's dim × dim mass at the diagonal block starting at pos | not executed | Hem5.MassFillAsWrittenTwoSystems | Hem5.FillMass |
