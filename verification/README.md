# The Mochi front end and Python bridge, in Dafny

A verification project for the algorithms of the Mochi compiler front end and
of its Python bridge: models that follow the code branch by branch, and proofs
of what the code is relied on for. `dafny verify dfyconfig.toml` checks all of
it.

Code that updates things in place is a class or a method with loops, proved
against a function on values; the theorems are about these functions, and hold
of the code through its contract.

| modules | what they model |
|---|---|
| Types, Substitution, UnifyRules, Unification, Polymorphism | first-order unification with `any`, a chained substitution and an occurs check; fresh variables and instantiation |
| Precedence, OperatorTables | one operator chain read three ways: operator stack, collapse level by level, logical split |
| Environments, Narrowing, NarrowingSoundness | the scope chain, option narrowing, closure boundaries |
| Subtyping, SubtypeRules | subtyping and assignability: the rules per kind, and the order theory |
| QueryExpr, QueryPlan, Pushdown, PushdownShapes | query plans with predicate pushdown, as row sequences |
| Effects, EffectFixpoint, EffectSoundness, EffectBits | effect inference to a least fixpoint, when its loop ends and what its result is worth |
| JsonRpc, Frames | concurrent calls over a pipe, and its framing |
| Sequences, Scanning, Characters, Numerals, Orders, Versions, VersionRoundTrip, VersionOrder, VersionBefore, Specifiers, SpecifierText, SpecifierMeaning | PEP 440 versions: parsing, printing, order, specifiers |
| PyTypes, PyTypeParser, PyTypeRoundTrip, PyTypeStuck, PyTypeFlatten | Python type expressions: parser and printer |
| StableSort, MatchArms, MatchPass | canonical order of match arms |
| TomlTables, TomlText, TomlParser, TomlPrint, TomlRoundTrip | the TOML reader |
| PyLock, PyLockRoundTrip, PyLockLaws, PyLockOrder, PyLockRun | PEP 751 lock files, printed and read |

Where the code and its comments disagree, the model follows the code:

- `Unify` is documented to keep the left of two variables; it binds the left to
  the right, so the right survives. The occurs check does not look into
  channels, streams, subscriptions and futures, although Apply does, and
  `value` is missing in `sameAtomic`.
- The operator tables differ: `union_all` and `??` rank lowest for the tree that
  is printed, and `??` is in no level of the inferrer.
- The push of a condition ignores the right and outer joins that follow, and
  does not see what the condition reads in set and omap literals.
- The effect loop is said to end after as many sweeps as there are labels; the
  bound is five changing sweeps per function, and with two functions of one
  name that is annotated nowhere it may not end. An annotation is lost if an
  unannotated function of the same name follows.
- `Call` is said to hold its lock to the end; it gives it up before it writes.
  A call without a method name makes the server answer with id 0 and stop.
- `Parse` of versions is said to round-trip byte for byte; it accepts leading
  zeros and `-0`, and non-ASCII label characters whose lowest byte is a letter
  or digit. `~=` ignores the epoch and rejects shorter releases.
- `dropMutableNarrowings` is said to drop every visible narrowing of a `var`; it
  keeps those of the innermost scope.
- A type expression with a number before an attribute, or with unions nested by
  parentheses, is not printed back as the same tree.

## Model

| member | source | states |
|---|---|---|
| Substitution.ApplyTerminatesIffAcyclic | types/subst.go:29-95 | The chase of Apply ends on every type exactly when the substitution is acyclic (has a rank) |
| Substitution.ApplyUnbound | types/subst.go:29-95 | Apply leaves no bound variable behind |
| Substitution.ApplyFixed | types/subst.go:29-95 | Apply does nothing to a type without bound variables |
| Substitution.ApplyIdempotent | types/subst.go:41-44 | Applying twice is applying once, chains of bindings included |
| Substitution.SolutionAbsorbsApply | types/subst.go:29-95 | A solution of the bindings cannot tell a type from its applied form |
| Substitution.ExtensionAbsorbsApply | types/subst.go:29-95 | Applying an older substitution before a newer one that extends it changes nothing |
| Substitution.OccursSeesVisible | types/subst.go:131-172 | The occurs check finds a variable exactly when it shows in the applied type outside channels, streams, subscriptions and futures |
| Substitution.BindKeepsAcyclicIff | types/subst.go:116-125 | A new binding keeps the substitution acyclic exactly when the variable is not in the applied type, channels included |
| Substitution.OccurrenceIsSmaller | types/subst.go:116-125 | A variable that properly occurs in a type equals the type under no assignment: the reason for the occurs check |
| Unification.ConsistentReflexive | types/subst.go:209-350 | Consistency, the relation that unification promises when `any`, structs and unions are about (`any` stands for every type but an unbound variable), is reflexive |
| Unification.ConsistentSymmetric | types/subst.go:209-350 | Consistency is symmetric |
| Unification.ConsistentRigidIsEqual | types/subst.go:209-350 | On types without `any`, structs, unions and function annotations, consistency is equality |
| Unification.ApplyKeepsConsistent | types/subst.go:29-95 | Applying a substitution to two consistent types keeps them consistent |
| Unification.ConsistentSurvivesExtension | types/subst.go:209-350 | Two types consistent under a substitution stay so under every later extension of it |
| Unification.Solver.Bind | types/subst.go:116-125 | Bind writes the map exactly when the occurs check passes; the result is cyclic exactly when the variable hides under a kind that the check does not search |
| Unification.Solver.UnifyInto | types/subst.go:209-350 | One call of unifyInto, by the pair (unbound variables, applied sizes): the map grows, success leaves the types consistent, whatever makes the inputs agree solves the new map, and after a failure `value` shows in whatever both can be made to be; a variable on either side is bound to what stands opposite it, `any` included |
| Unification.Solver.UnifyApplied | types/subst.go:228-350 | The same for two types that are already applied |
| Unification.Solver.UnifyArgs | types/subst.go:248-340 | The same for the children of two types of one kind, up to the first failure |
| Unification.Solver.BindVar | types/subst.go:214-227 | The same for the variable cases |
| Unification.Unify | types/subst.go:195-207 | Sound (result extends the input by variables of the problem, types consistent under it), most general (whatever makes the types agree, every unifier above all, factors through it), complete: a failure means that `value` shows in all the types can be made to be, and that they can be nothing if the problem has no `value`; a variable is bound to what stands opposite it, `any` included, and of two variables the second survives; on rigid types unifiability is decided; the gaps of the occurs check and of sameAtomic |
| Unification.UnifierFits | types/subst.go:195-207 | What makes two types the same makes them agree, so that what is said of agreement holds of unifiers |
| UnifyRules.DerivesOnce | types/subst.go:209-350 | The rules of unifyInto (bindings applied first, variables before `any`, `any` before kinds, children from the left up to the first failure) allow one end only; Unify and unifyInto end as they say |
| Unification.OccursCheckRightIff | types/subst.go:131-172 | The occurs check rejects exactly the cyclic bindings if and only if the variable does not hide under an unsearched kind |
| Unification.HiddenBindingExample | types/subst.go:131-172 | T bound to chan<T> passes the check, and Apply then never ends |
| Unification.FlattenIsApply | types/subst.go:29-95 | A chained substitution, collapsed, gives in one pass what Apply gives by chasing |
| Unification.FlattenUnifies | types/subst.go:195-207 | A substitution under which two types apply to the same is, collapsed, a unifier of them |
| Unification.ResultFactors | types/subst.go:195-207 | A most general result is absorbed by every unifier |
| Polymorphism.Compose | types/subst.go:101-110 | The composition that the two loops fill in is the applied images of the one overlaid by the other |
| Polymorphism.ComposeSolves | types/subst.go:97-110 | The composition has exactly the solutions of `sub` that also satisfy `other` on the variables `sub` leaves alone; what `other` says about shared variables is lost |
| Polymorphism.Counter.FreshTypeVar | types/poly.go:34-40 | Every call moves the counter on by one and names the variable after it |
| Polymorphism.FreshNamesDiffer | types/poly.go:17-40 | No two calls give one name, and no fresh name can be written in a program |
| Polymorphism.Instantiate | types/poly.go:56-65 | Each parameter is renamed to a fresh variable of this call, different ones to different ones, and nothing is chased |
| Polymorphism.RenamingIsOnePass | types/poly.go:56-65 | The transitive Apply is a one-pass renaming here, because images are no parameters |
| Polymorphism.InstanceIsRenaming | types/poly.go:42-65 | Renaming the fresh variables back gives the declared type again |
| Polymorphism.InstancesAreApart | types/poly.go:17-40 | Two call sites share no fresh variable |
| Polymorphism.CapturedExample | types/poly.go:56-65 | With a parameter named like a fresh variable two parameters would be merged |
| Polymorphism.FreeVarsAreApplied | types/poly.go:71-129 | The free variables collected under a substitution are those of the applied type |
| Precedence.BuildReadsAsChain | ast/convert.go:403-461 | The tree of a chain reads in order as the chain and is left-associative under the table |
| Precedence.LeftAssociativeIsBuild | ast/convert.go:403-461 | Every left-associative tree is the tree of its own chain |
| Precedence.BuildIsTheTree | ast/convert.go:403-461 | For any table: there is exactly one left-associative tree over a chain, and Build is it |
| Precedence.BuildSplit | ast/convert.go:403-461 | The tree splits at the rightmost loosest operator |
| Precedence.Reduce | ast/convert.go:438-447 | Popping every operator that binds at least as tight keeps the tree of the whole chain |
| Precedence.FromExpr | ast/convert.go:403-461 | The operator-stack algorithm builds that tree, for any table |
| OperatorTables.TreesAgreeIff | ast/convert.go:403-461 | Any two tables build the same tree of a chain exactly when there are no two operators of which one table puts the first above the second and the other table the second above the first |
| OperatorTables.AstAgreesIff | ast/convert.go:403-461 | Printed and checked tree agree, on every chain, exactly when the ranks of `prec` and those of the logical split put no two of its operators above each other |
| OperatorTables.CoreAgreesIff | ast/convert.go:418-434 | On chains of arithmetic, relational, equality and logical operators: exactly when no equality operator is followed by a relational one with only tighter operators in between |
| OperatorTables.PairAgreesIff | ast/convert.go:418-434 | For every two listed operators, `??` and set operators included, whether their printed and checked tree agree |
| OperatorTables.AstLevels | ast/convert.go:418-434 | The ranks of `prec` as a list of levels |
| OperatorTables.SameOrderSameTree | ast/convert.go:403-461 | Tables that order the operators of a chain alike build the same tree |
| Precedence.CollapsePeak | types/infer.go:102-180 | Splicing out one operator that no neighbour out-binds keeps the tree of the chain |
| Precedence.CollapseByLevel | types/infer.go:102-180 | The in-place collapse, level by level, computes the fold of the same tree for any levels and combine function; an unlisted operator is an error |
| Precedence.FailurePropagates | types/infer.go:102-180 | A failing operand fails the whole chain |
| OperatorTables.InferTable | types/infer.go:83-94 | The inferrer's levels as ranks; `??` is in none of them |
| OperatorTables.InferAgreesIff | types/infer.go:66-180 | Inferrer and checker read the same tree exactly on chains that do not mix a logical operator with a set operator |
| OperatorTables.CheckTable | types/check_expr.go:68-77 | The checker's levels as ranks |
| OperatorTables.CheckBinary | types/check_expr.go:30-128 | checkBinaryExpr folds the operand types over the tree that splits at the last logical or, then at the last logical and, and collapses the rest |
| OperatorTables.CheckTreeIsBuild | types/check_expr.go:30-128 | The tree with the logical split is the tree of one table: logical operators loosest, the others by level |
| OperatorTables.LogicalSplitAgreesIff | types/check_expr.go:30-42 | The logical split builds the collapse's tree exactly on chains that do not mix a logical operator with `??` or a set operator |
| OperatorTables.SplitIsLoosest | types/check_expr.go:35-40 | Without such operators the split point is the rightmost loosest operator of the table |
| OperatorTables.LastLogicalIndex | types/narrow.go:85-92 | The index of the last occurrence, or -1 |
| Narrowing.OptionNarrowing | types/narrow.go:23-80 | The recursive worker, allocating narrowed environments on the way, returns what Narrow says for both outcomes |
| Narrowing.NarrowBoth | types/narrow.go:29-46 | Both sides of a split, the right one checked in the environment narrowed by the left |
| Narrowing.NarrowComparison | types/narrow.go:47-79 | One comparison with `none`, in either order, on a visible option |
| Narrowing.Overlay | types/narrow.go:184-189 | A child scope with the given types, the mutability of the parent chain, and shadows marked or not |
| Narrowing.NarrowedEnv | types/narrow.go:179-190 | The chain with one more marked scope, or the same environment when nothing is narrowed |
| Narrowing.ClosureBoundaryEnv | types/narrow.go:197-223 | The chain overlaid with the declared types of all marked names |
| Narrowing.DropMutableNarrowings | types/narrow.go:232-257 | Resets, in place, exactly the marked `var`s that the innermost scope does not bind |
| Narrowing.StripAdds | types/narrow.go:106-121 | Stripping option layers twice is stripping their sum |
| Narrowing.OptionIs | types/narrow.go:47-79 | Narrowing looks at options of one element, and at no other type |
| NarrowingSoundness.FactsHold | types/narrow.go:23-80 | A condition that comes out true (false) makes every name its tree lists for that outcome different from `none` |
| NarrowingSoundness.MergeDescribes | types/narrow.go:106-121 | Merging the narrowings of two sides describes the facts of both, the right map winning |
| NarrowingSoundness.NarrowsExactly | types/narrow.go:23-80 | On the tree the checker reads, exactly the option-typed names among the facts are narrowed, each by one layer per mention |
| NarrowingSoundness.NarrowingSound | types/narrow.go:23-80 | In every store that respects the environment and in which the condition comes out so, the narrowed environment is respected, for all nestings of ==, !=, and logical and/or |
| NarrowingSoundness.AstNarrowingSoundIff | types/narrow.go:23-80 | Against the tree FromExpr builds, under operators that never take arithmetic or a set operator for a condition, narrowing is sound exactly when no operator of the chain ranks below the logical ones, or the loosest is a set operator, or every variable named by a fact has more option layers than facts; in the first and last case under any operators |
| NarrowingSoundness.LooseUnsound | types/narrow.go:23-80 | The store and semantics that show the other chains unsound |
| NarrowingSoundness.CoalesceExample | types/narrow.go:23-80 | a ?? b && x != none narrows x although the left side of ?? may decide |
| NarrowingSoundness.ClosureBoundarySound | types/narrow.go:192-223 | A store respects the closure's environment exactly when it respects the declared types |
| NarrowingSoundness.DropSound | types/narrow.go:225-257 | After an impure call that only assigns `var`s, the environment is respected again |
| Environments.NarrowedLookups | types/narrow.go:179-190 | A narrowing shows where it is made and changes no declared type and nobody's mutability |
| Environments.NarrowedGrounded | types/narrow.go:179-190 | Narrowing visible names keeps every shadow backed by a declaration further out |
| Environments.BoundaryShowsDeclaredIff | types/narrow.go:197-223 | Behind the boundary a name shows its declared type exactly when it has one or is not visible; with backed shadows always |
| Environments.DropShowsDeclared | types/narrow.go:232-257 | What every name shows after the drop |
| Environments.DropCompleteIff | types/narrow.go:225-257 | Every `var` shows its declared type after the drop exactly when the innermost scope itself narrows no `var` away from it |
| Environments.Env.SetVar | types/env.go:238-241 | Binds a name in the innermost scope and leaves the rest of the chain alone |
| Environments.Env.GetVar | types/env.go:256-264 | The innermost binding |
| Environments.Env.DeclaredVarType | types/env.go:271-282 | The innermost binding that is no shadow, else what the root binds |
| Environments.Env.IsMutable | types/env.go:296-304 | The innermost mutability |
| Environments.SetVarDeclaresIff | types/env.go:238-282 | After SetVar the declared type is the new one exactly when the scope held no shadow of the name, or it was that type already |
| Environments.GroundedHasDeclaration | types/env.go:266-282 | With backed shadows every visible name has a declaration |
| Environments.DeclaredUnmarked | types/env.go:271-282 | A name that nobody narrows shows its declared type |
| Subtyping.EqualKindsReflexiveIff | types/subtype.go:267-377 | A type equals itself exactly when it shows no future outside a named struct |
| Subtyping.EqualKindsSymmetric | types/subtype.go:267-377 | equalKinds is symmetric |
| Subtyping.EqualKindsTransitive | types/subtype.go:267-377 | equalKinds is transitive |
| Subtyping.SubtypeReflexiveIff | types/subtype.go:17-183 | Reflexive exactly without an exposed future |
| Subtyping.SubtypeAntisymmetric | types/subtype.go:17-183 | Subtypes of each other are equal up to equalKinds |
| Subtyping.SubtypeTransitive | types/subtype.go:17-183 | Transitive when each union name carries one variant set, through contravariant parameters, variant-to-union and the numeric tower |
| Subtyping.SubtypeTransitiveIff | types/subtype.go:17-183 | On the types over given unions Subtype is transitive exactly when no name has two variant sets |
| Subtyping.OneNameTwoUnions | types/subtype.go:126-142 | Two variant sets under one name break transitivity |
| Subtyping.SubtypeOfComps | types/subtype.go:17-183 | The equality fast path adds nothing to the structural rules |
| SubtypeRules.EqualKindsIff | types/subtype.go:267-377 | equalKinds is equality of what is left without effects and type parameters of functions, fields of named structs and variants of unions, where no future shows |
| SubtypeRules.AtomRule | types/subtype.go:17-60 | int <: int64 <: bigint <: bigrat and float <: bigrat, with what follows, and nothing else |
| SubtypeRules.FunctionRule | types/subtype.go:146-174 | Functions are contravariant in every parameter, the variadic one included, and covariant in the result |
| SubtypeRules.CovariantRule | types/subtype.go:53-120 | Sets, lists and options are covariant |
| SubtypeRules.InvariantRule | types/subtype.go:74-115 | Maps, ordered maps, channels, streams, subscriptions and groups are invariant |
| SubtypeRules.KindRule | types/subtype.go:17-183 | Kinds do not mix, and a future is a subtype of `any` alone |
| SubtypeRules.StructRule | types/subtype.go:126-142 | A named struct goes into structs of its name and unions that have it as a variant |
| SubtypeRules.UnionRule | types/subtype.go:139-144 | A union goes into unions of its name |
| SubtypeRules.UnnamedStructRule | types/subtype.go:126-142 | A struct without a name goes into its equals and into unions with a nameless variant |
| SubtypeRules.AnyRule | types/subtype.go:17-33 | Everything is a subtype of `any`, and `any` of nothing else |
| SubtypeRules.VarRule | types/subtype.go:17-33 | A type variable is a subtype of itself and of `any` alone |
| SubtypeRules.AnyAssignable | types/subtype.go:210-225 | Everything is assigned to `any`, and `any` as an element to everything |
| SubtypeRules.ElementsAssignable | types/subtype.go:210-258 | Elements of lists, maps, ordered maps, channels, streams, subscriptions and options are assigned covariantly, as elements |
| SubtypeRules.OptionAssignable | types/subtype.go:210-258 | A value is assigned to an option if it is to the option's element |
| SubtypeRules.OtherAssignable | types/subtype.go:210-258 | All else is Subtype |
| Subtyping.SubtypeIsAssignable | types/subtype.go:196-258 | Subtype implies Assignable, in and out of element position |
| Subtyping.AssignableIsSubtype | types/subtype.go:210-258 | Without `any` in the source and without options, maps, channels, streams and subscriptions in the target, Assignable is Subtype |
| Subtyping.AssignableNotTransitive | types/subtype.go:196-258 | Assignable is not transitive |
| Subtyping.AssignmentsComposeIff | types/subtype.go:196-258 | Assignments compose over a middle type, for all types on both sides, exactly when it has no `any` among the elements that assignableAt compares |
| QueryExpr.UsedAliasesExactly | types/query_plan_builder.go:196-219 | usedAliases finds exactly the variables read outside unconverted parts, and stray field names |
| QueryExpr.UsedAliasesCover | types/query_plan_builder.go:196-219 | Without dropped parts it covers every variable the condition reads |
| QueryExpr.EvalDependsOnReads | types/query_plan_builder.go:45-53 | An expression depends only on the variables it reads |
| QueryExpr.SelectorIsFields | types/query_plan_builder.go:196-219 | x.a.b is field b of x.a |
| QueryPlan.UnmatchedAre | types/query_plan_builder.go:105-123 | A right or outer join keeps a right row beside nothing exactly if the join condition holds of it with no left row |
| QueryPlan.AddNext | types/query_plan_builder.go:64-123 | One round of either loop keeps the plan built so far equal to the pushed prefix; it stops with a type error only if the source of its clause, its join condition with its own alias in scope, or the condition at its push point fails |
| QueryPlan.BuildQueryPlan | types/query_plan_builder.go:24-130 | A plan comes out exactly if every source, join condition and the `where` condition pass in their scopes and the condition is not taken twice; it is the plan with the condition at the push point; a type error answers a failed check only, and only repeated aliases can crash it |
| Pushdown.ClausesCommute | types/query_plan_builder.go:64-123 | A filter commutes with inner and left joins that bind other aliases |
| Pushdown.PushdownPreserves | types/query_plan_builder.go:45-130 | Pushing to a point keeps rows, order and multiplicity when inner or left joins follow and none binds an alias the condition reads |
| Pushdown.ClausesAreLoops | types/query_plan_builder.go:64-123 | Clauses added one by one are nested loops |
| Pushdown.PlainPlanMeaning | types/query_plan_builder.go:125-130 | The plan with the condition on top is nested loops followed by `where` |
| Pushdown.BuiltPlanMeaning | types/query_plan_builder.go:24-130 | The built plan yields what the query means, under distinct aliases, inner or left joins and a checker that rejects out-of-scope reads |
| Pushdown.CoveredConditionMeaning | types/query_plan_builder.go:24-130 | The same whatever the checker does, when the conversion drops no part of the condition |
| PushdownShapes.PushedPlanMakesRows | types/query_plan_builder.go:56-62 | With a right or outer join after the push point, the pushed plan makes rows where the query has none |
| PushdownShapes.PushedPlanLosesRows | types/query_plan_builder.go:196-219 | With a clause after the push point that binds a name which the condition reads unseen, the pushed plan has no row where the query has one |
| PushdownShapes.PushdownSoundIff | types/query_plan_builder.go:45-130 | For all queries of a shape that the builder pushes to a point, with a condition that reads that alias and the names xs, pushing is sound under every interpretation exactly when every later clause is an inner or left join and binds none of the xs |
| PushdownShapes.TinyCondReads | types/query_plan_builder.go:196-219 | For any alias and names, a condition that reads them all and of which usedAliases sees the alias only |
| PushdownShapes.HiddenReadExample | types/query_plan_builder.go:196-219 | A set literal hides an alias from usedAliases; the plan then loses rows |
| Effects.ExprTotal | types/effects_infer.go:159-200 | What an expression's walker returns is the total of its uses, in every environment |
| Effects.ArgTotal | types/effects_infer.go:243-271 | The same for arguments, where a bare function name counts |
| Effects.StmtTotal | types/effects_infer.go:95-157 | The same for statements, under the locals bound before them |
| Effects.BindParam | types/effects_infer.go:78-88 | After funBodyEnv a name has the binding of its last parameter |
| Effects.BindOther | types/effects_infer.go:78-88 | and every other name the one it had |
| EffectFixpoint.InferIsTotal | types/effects_infer.go:47-57 | A function's inferred set is the total of what its body uses |
| EffectFixpoint.InferMonotone | types/effects_infer.go:47-57 | Inference is monotone in the environment |
| EffectSoundness.ChainEffectsPublished | types/check.go:441-535 | If no annotated function is followed by another of its name, with a closed environment and no T065 report, whatever the bodies and annotations on a finite chain of named calls can produce is in the published set of its first function |
| EffectSoundness.ChainBodiesPublished | types/check.go:441-535 | The same for what the bodies do, if only the last function of every annotated name is annotated |
| EffectSoundness.SoundIff | types/check.go:441-535 | Whatever the bodies and annotations are, what the loop leaves covers what call chains emit, if nothing is reported: exactly when no annotated function is followed by another of its name |
| EffectSoundness.BodiesSoundIff | types/check.go:441-535 | The same for what the bodies do: exactly when the last function of every annotated name is annotated |
| EffectSoundness.DeclaredIsPublished | types/check.go:520-535 | If the last function of every annotated name is annotated, that annotation is published, and without a report it covers every body of the name |
| EffectSoundness.PublishedIffReached | types/check.go:441-535 | Published effects are exactly those that call chains reach |
| EffectSoundness.HiddenAnnotationExample | types/check.go:441-535 | Of two functions of one name the second, not annotated, makes the first, annotated one count as pure, and nothing is reported |
| EffectFixpoint.InferWitnessed | types/check.go:491-518 | Every inferred label is witnessed by a call chain |
| EffectFixpoint.DeclarationsAre | types/check.go:446-489 | `declared` holds exactly the names that are annotated somewhere, each with one of its annotations |
| EffectFixpoint.SeedSignatures | types/check.go:441-489 | The first pass, for any names: the map of annotations, and the signatures, of one name the last |
| EffectFixpoint.UpdateGrows | types/check.go:505-514 | One changing step keeps the sets below every closed environment and witnessed |
| EffectFixpoint.Sweep | types/check.go:491-518 | A sweep, for any names, makes the steps of its functions in order, and reports a change exactly when some function moves |
| EffectFixpoint.SweptMonotone | types/check.go:491-518 | A sweep is monotone in the sets it starts from |
| EffectFixpoint.SweepsRise | types/check.go:491-518 | From one sweep to the next no published set shrinks, for any names |
| EffectFixpoint.LoopEndsIff | types/check.go:491-518 | The loop ends at all exactly when the environment after 5 sweeps per function is stable |
| EffectFixpoint.SettledEnds | types/check.go:491-518 | It ends if every repeated name is annotated at least once |
| EffectFixpoint.InferEffects | types/check.go:491-518 | On every program on which the loop ends it does so after at most 5 changing sweeps per function, at the least closed environment, every label of which has a call chain |
| EffectFixpoint.ReportT065 | types/check.go:520-535 | Exactly the functions of annotated names that show more than the annotation are reported |
| EffectSoundness.EndsForHeadsIff | types/check.go:491-518 | The loop ends, and a stable environment exists, whatever the bodies and annotations are, exactly when every repeated name is annotated at least once |
| EffectBits.BitsAreSets | types/effects.go:84-106 | The bit operations are union, insertion, inclusion and equality of sets |
| EffectBits.NewEffectSet | types/effects.go:71-77 | The loop collects exactly the listed labels |
| EffectBits.Labels | types/effects.go:109-117 | The labels of a set, each once, in canonical order |
| JsonRpc.NextInv | subproc/client.go:40-68 | Every step of every interleaving keeps the invariant of ids, queues and answers |
| JsonRpc.CallReturnsOwnAnswer | subproc/client.go:40-68 | A finished call has the handler's answer to its own method and parameters, in every interleaving |
| JsonRpc.IdsUnique | subproc/client.go:40-58 | Ids start at 1 and are never shared |
| JsonRpc.CallsConserved | subproc/client.go:40-68 | Callers that have written and not read, plus those that gave up, equal requests plus responses under way |
| JsonRpc.ReadMismatchIff | subproc/client.go:59-67 | A read fails with an id mismatch exactly when another call wrote the oldest unanswered request, or the call named no method |
| JsonRpc.SerialMismatchIff | subproc/client.go:34-68 | With serialised calls only a call without a method name mismatches |
| JsonRpc.OverlapMismatches | subproc/client.go:40-68 | Two overlapping calls can read each other's answers |
| JsonRpc.Client.TakeId | subproc/client.go:41-49 | The locked part of Call takes the step of the system |
| JsonRpc.Client.MarkClosed | subproc/client.go:72-80 | Close takes the step of the system |
| JsonRpc.RunInv | subproc/server.go:22-41 | The invariant holds of every state the client and the message loop can reach |
| JsonRpc.AnswerIs | subproc/server.go:22-41 | An answer has the id of its request, but for the parse error with id 0 that a request without a method gets |
| Frames.FrameRoundTripIff | subproc/frame.go:19-80 | A frame comes back as written, and the next starts behind it, exactly when it does not end in a carriage return |
| Frames.StreamRoundTrip | subproc/frame.go:19-80 | A stream of frames is read back frame by frame, less trailing carriage returns |
| Frames.StreamRoundTripIff | subproc/frame.go:19-80 | The stream is unchanged exactly when no frame ends in a carriage return |
| Frames.FrameIs | subproc/frame.go:19-32 | Exactly the payloads of at most 16 MiB without a newline are framed |
| Frames.LineIsRead | subproc/frame.go:37-80 | A line is read without the carriage return at its end, unless it is then longer than 16 MiB |
| Frames.NoLineIsRead | subproc/frame.go:53-66 | Without a newline: the clean end of an empty stream, or a truncated frame |
| Frames.Reader.ReadSlice | subproc/frame.go:53-57 | What a buffered reader hands out: up to a newline, a full buffer, or the rest |
| Frames.Reader.ReadFrame | subproc/frame.go:37-80 | Gathering chunks over any buffer size reads exactly the first frame of the stream |
| Versions.Parse | semver/version.go:33-123 | Parse, field by field, is cutting the text into its parts and counting them |
| Versions.ParseRelease | semver/version.go:107-121 | The release numbers, or an error on the first part that is none |
| Versions.Render | semver/version.go:151-176 | String builds the joined canonical parts |
| VersionRoundTrip.SplitOfJoinedParts | semver/version.go:33-147 | Cutting what was joined gives the parts back |
| VersionRoundTrip.JoinOfSplitParts | semver/version.go:33-147 | Joining what was cut gives the string back |
| VersionRoundTrip.AcceptsIff | semver/version.go:33-147 | Parse accepts exactly the strings of this form |
| VersionRoundTrip.ParsedIsWellFormed | semver/version.go:33-123 | Every result is well formed: machine counters, a release, a known kind, a clean label |
| VersionRoundTrip.VersionRoundTrip | semver/version.go:149-176 | Parse(String(v)) = v for every well-formed version |
| VersionRoundTrip.NormalisingIsIdempotent | semver/version.go:149-176 | Normalising twice is normalising once |
| VersionRoundTrip.StringIsInjective | semver/version.go:151-176 | Two well-formed versions print alike only if they are the same |
| VersionRoundTrip.UnchangedIff | semver/version.go:30-32 | An accepted string comes back byte for byte exactly when it has no sign, no leading zero, no 0! epoch and no - or _ in the label |
| VersionRoundTrip.LeadingZeroExample | semver/version.go:30-32 | "01" is accepted and printed as "1" |
| VersionRoundTrip.WideCharacterExample | semver/version.go:60-64 | A character whose lowest byte is a letter passes the label check |
| Numerals.AtoiOfDigits | semver/version.go:151-176 | Printing a machine number and reading it is the identity |
| Numerals.AtoiOfDecimal | semver/version.go:151-176 | Every 64-bit integer is read back with its sign, and no other number |
| Characters.VersionCharacters | semver/version.go:60-64 | Which characters are digits, white space and label characters |
| Numerals.DigitsOfValueIff | semver/version.go:116-120 | A numeral is printed back unchanged exactly when it has no leading zero |
| VersionOrder.CmpRelease | semver/version.go:216-234 | The loop is the zero-padded lexicographic order |
| VersionOrder.CompareLocal | semver/version.go:315-358 | The loop is the padded segment order, an absent label first |
| VersionOrder.Compare | semver/version.go:197-214 | Compare is one lexicographic order of six keys |
| VersionOrder.CompareIsPreorder | semver/version.go:183-358 | Compare is a total preorder on all versions: signs turn around, transitive, equality a congruence |
| VersionOrder.CompareZeroIff | semver/version.go:183-358 | What compares equal: equal up to trailing zeros, leading zeros of label numbers and trailing empty label segments |
| VersionBefore.CompareLessIff | semver/version.go:183-358 | Compare answers less exactly when the first key that differs is smaller: epoch, zero-padded release, stage with kind and number, post, dev, local segments, numbers by value above words by character |
| VersionBefore.NumberIff | semver/version.go:371-386 | A label segment is a number if it is all digits and fits a machine integer |
| VersionOrder.ReleaseCycle | semver/version.go:183-196 | dev < pre-dev < a < b < rc < final < local < post-dev < post, for all counters |
| VersionOrder.SegmentsArePreorder | semver/version.go:330-355 | Mixed numeric and alphanumeric segments form a total preorder |
| VersionOrder.PaddedCoherent | semver/version.go:216-234 | Padding on both sides keeps a preorder a preorder |
| Orders.StringsCoherent | semver/version.go:281-283 | strings.Compare is a total preorder |
| Orders.StringsEqualIff | semver/version.go:281-283 | strings.Compare is 0 exactly on equal strings |
| Orders.StringBeforeIff | semver/version.go:281-283 | strings.Compare is negative exactly if, where the strings first differ, the first one ends or has the smaller character |
| Specifiers.MatchCompatible | semver/specifier.go:166-183 | The loop decides the prefix test on top of >= |
| Specifiers.CompatibleIsInterval | semver/specifier.go:162-183 | `~=` as PEP 440 defines it is the interval from the version up to, but excluding, the bumped prefix .dev0 |
| Specifiers.MatchCompatibleIff | semver/specifier.go:166-183 | The code decides exactly that but for two families: later epochs with the same prefix, which it accepts, and short releases, which it rejects |
| Specifiers.ShortReleaseIff | semver/specifier.go:166-183 | The short releases, by their numbers, are the too short versions that `~=` should accept: same epoch, a prefix of the release, zeros after it, and a suffix that is not older |
| Specifiers.MatchCompatibleIsInterval | semver/specifier.go:166-183 | For equal epochs and enough release numbers the code accepts exactly the interval from the version up to the bumped prefix |
| Specifiers.CompatibleGaps | semver/specifier.go:166-183 | 1!2.5 passes ~=2.2, and 2 does not pass ~=2.0.0 |
| Specifiers.Match | semver/specifier.go:128-135 | A specifier accepts exactly what all its clauses accept |
| SpecifierText.TokenIsRead | semver/specifier.go:61-84 | An operator token before a digit is read as that operator, longer tokens first |
| SpecifierText.ClauseIsRead | semver/specifier.go:61-96 | A printed clause, with a blank before it or not, is read back |
| SpecifierText.ParseSpecifier | semver/specifier.go:99-113 | The loop reads the clauses between the commas, or fails with the first that is none |
| SpecifierText.SpecifierRoundTrip | semver/specifier.go:99-124 | ParseSpecifier(spec.String()) gives the clauses again, for all well-formed versions |
| SpecifierMeaning.ClauseMeaning | semver/specifier.go:61-160 | For each of the eight tokens at the start of the text: which versions the clause accepts, by first differences of the keys; no token, no clause |
| Specifiers.OrderingClausesConvex | semver/specifier.go:128-160 | A specifier of ordering clauses accepts everything between two versions it accepts |
| PyTypeParser.PyParser.ParseUnion | typemap/pytype.go:134-159 | The loop over branches reads what the grammar says, or fails with it |
| PyTypeParser.PyParser.ParsePrimary | typemap/pytype.go:161-197 | The loop over subscripts and attributes likewise |
| PyTypeParser.PyParser.ParseArgs | typemap/pytype.go:199-236 | The loop over arguments, with trailing commas |
| PyTypeParser.PyParser.ParseAtom | typemap/pytype.go:238-282 | One atom |
| PyTypeParser.PyParser.ParseIdent | typemap/pytype.go:284-295 | One identifier |
| PyTypeParser.PyParser.ParseStringLiteral | typemap/pytype.go:297-313 | A quoted literal with its escapes, up to the first closing quote |
| PyTypeParser.PyParser.TakeToken | typemap/pytype.go:315-327 | The longest run of token characters |
| PyTypeParser.ParsePyType | typemap/pytype.go:110-121 | The parser terminates on every input and returns the grammar's tree, all input used |
| PyTypeFlatten.ParsedIsShaped | typemap/pytype.go:110-327 | Whatever is returned has tokens in its leaves, tuples only as arguments and two branches to a union |
| PyTypeRoundTrip.PrimaryText | typemap/pytype.go:49-197 | A printed primary, before any text that does not go on with it, is read back |
| PyTypeRoundTrip.ArgsText | typemap/pytype.go:199-236 | Printed arguments are read back, nested lists included |
| PyTypeRoundTrip.UnionText | typemap/pytype.go:134-159 | A printed type is read back before whatever may follow it |
| PyTypeRoundTrip.RoundTrip | typemap/pytype.go:49-327 | ParsePyType(String(t)) = t for every normal tree |
| PyTypeFlatten.BranchesPrint | typemap/pytype.go:67-72 | Flattening unions does not change the printed form |
| PyTypeFlatten.PrintThenParse | typemap/pytype.go:49-327 | For every tree that the parser can return: printed and parsed it comes back flattened, or is rejected if a number stands before an attribute; so it comes back unchanged exactly when it is normal |
| PyTypeFlatten.ReparseIsFlat | typemap/pytype.go:49-327 | From any source: printed and parsed again the tree is flattened, and a second round changes nothing; with a number before an attribute the printed form is rejected |
| PyTypeStuck.UnionStuck | typemap/pytype.go:49-327 | A printed number before an attribute is read as a longer number, and the parser fails or stops before an identifier, which no context accepts |
| PyTypeStuck.FlattenedRoundTripIff | typemap/pytype.go:49-327 | A flattened tree is read back if no number stands before an attribute, and rejected otherwise |
| PyTypeFlatten.NumberBeforeAttribute | typemap/pytype.go:315-327 | `1 .x` parses, and its printed form does not |
| PyTypeFlatten.IdentIsRead | typemap/pytype.go:238-282 | An identifier alone is a name, but for True, False and None |
| Characters.PyCharacters | typemap/pytype.go:284-327 | Which bytes are letters, start or continue an identifier or a number, and are blank |
| MatchArms.Canonicalize | transpiler3/c/lower/match.go:79-107 | Fails exactly on two unguarded arms of one tag, and else sorts the arms in place |
| MatchArms.DistinctTags | transpiler3/c/lower/match.go:80-92 | The seen-map finds exactly the duplicates |
| StableSort.SortInPlace | transpiler3/c/lower/match.go:98-107 | The in-place sort is the stable sort |
| StableSort.SortSorts | transpiler3/c/lower/match.go:98-107 | Its result is sorted and a permutation |
| StableSort.SortTies | transpiler3/c/lower/match.go:98-107 | Elements that tie keep their order |
| MatchPass.SortKeeps | transpiler3/c/lower/match.go:96-107 | The order among guarded arms of a tag, and among unguarded ones, is kept |
| MatchPass.ChosenAfterSort | transpiler3/c/lower/match.go:94-107 | After the pass the first true guarded arm is chosen, else the unguarded one |
| MatchPass.SortKeepsChoiceIff | transpiler3/c/lower/match.go:79-107 | First-match is kept for every tag and every guard outcome exactly when guarded arms of a tag stand before the unguarded one |
| MatchPass.ExecSorted | transpiler3/c/lower/match.go:79-107 | The same for running arms, with effects in patterns and guards |
| MatchPass.PassPreserves | transpiler3/c/lower/match.go:37-122 | A program does the same after the pass, through all nested blocks it visits, for as long as it runs |
| MatchPass.SortThenPass | transpiler3/c/lower/match.go:109-121 | Sorting before descending into the bodies is sorting after |
| MatchPass.PassIsIdempotent | transpiler3/c/lower/match.go:37-122 | A second pass changes nothing |
| TomlTables.ReplaceIs | toml/parser.go:492-518 | An update at a path changes the table there, through the last element of every array, and nothing else |
| TomlTables.OpenTableIs | toml/parser.go:492-518 | A header leaves at its path the table that was there, or an empty one |
| TomlTables.OpenArrayIs | toml/parser.go:522-546 | An array header appends one empty table behind the elements that were there |
| TomlTables.SetKeyIs | toml/parser.go:202-227 | A key/value line adds a new key to the current table, and only there |
| TomlParser.Parser.SkipWSAndComments | toml/parser.go:65-79 | Skips exactly white space and comments |
| TomlParser.Parser.SkipLineEnd | toml/parser.go:83-107 | Whether only blanks and a comment were left of the line |
| TomlParser.Parser.ParseString | toml/parser.go:250-318 | Reads one string, rejecting multi-line ones |
| TomlParser.Parser.ParseEscape | toml/parser.go:276-313 | Reads one escape |
| TomlParser.Parser.ParseKeyPath | toml/parser.go:165-180 | Reads a dotted path |
| TomlParser.Parser.ParseArray | toml/parser.go:320-370 | Reads an array over several lines |
| TomlParser.Parser.ParseInlineTable | toml/parser.go:372-413 | Reads an inline table, rejecting repeated keys |
| TomlParser.Parser.ParseDocument | toml/parser.go:109-163 | The document loop builds the tree of the grammar, line by line |
| TomlPrint.QuoteParsesIff | toml/parser.go:250-318 | What Go's %q prints is read back as the string exactly when all its characters have escapes TOML knows |
| TomlPrint.HexRoundTrip | toml/parser.go:298-310 | Four hexadecimal digits are read back as the number |
| TomlRoundTrip.LineParses | toml/parser.go:109-227 | One printed line, before any text, does what the line means |
| TomlRoundTrip.LinesParse | toml/parser.go:109-163 | Parsing printed lines runs them |
| TomlText.CommentIsSkipped | toml/parser.go:65-79 | A comment is skipped up to its newline |
| TomlText.BarsAreDropped | toml/parser.go:431-478 | Of a number's text the bars are dropped, and nothing else |
| Characters.TomlCharacters | toml/parser.go:65-79 | Which characters are white space, stand in bare keys, and in numbers |
| PyLockRun.Render | uv/pylock.go:198-258 | Builder, sorted copies and loops give the text of the lock's lines |
| PyLockRun.RenderPackage | uv/pylock.go:219-256 | The same for one package, from its header to its sdist |
| PyLockRun.RenderFile | uv/pylock.go:260-276 | The same for one file |
| PyLockRun.SortedAlgos | uv/pylock.go:263-267 | The hash algorithms in ascending order, whatever the order of the map |
| PyLockRun.ParsePyLock | uv/pylock.go:72-109 | Succeeds exactly on well-typed trees, and fills in what they say |
| PyLockRun.ParsePackage | uv/pylock.go:111-161 | The same for one package |
| PyLockRun.ParseFile | uv/pylock.go:163-194 | The same for one file; hashes in lower case |
| PyLockRoundTrip.FileRuns | uv/pylock.go:260-276 | The lines of a file fill the table they stand under with exactly that file |
| PyLockRoundTrip.PackageRuns | uv/pylock.go:219-256 | The lines of a package append one table, holding its own wheels and sdist |
| PyLockRoundTrip.LockRuns | uv/pylock.go:198-258 | The lines of a lock build exactly its table |
| PyLockLaws.LockIsRead | uv/pylock.go:72-194 | That table is read as the canonical lock and as nothing else |
| PyLockLaws.LockRoundTrip | uv/pylock.go:72-276 | ParsePyLock(Render(l)) is l in canonical order, for locks with lower-case bare-key hashes and quotable strings |
| PyLockLaws.CanonicalTwice | uv/pylock.go:196-258 | Canonical order is stable |
| PyLockOrder.CanonicalIsArranged | uv/pylock.go:196-258 | The canonical lock has the defaults filled in and packages by name and version, dependencies and wheels by name, ascending by characters, as permutations that keep the order of ties |
| PyLockOrder.AscendingByCharacters | uv/pylock.go:263-267 | The hash algorithms ascend by characters |
| PyLockLaws.PrintIsIdempotent | uv/pylock.go:196-258 | Rendering what was read gives the same text |

## Left out

- Unification.Unify: that the verdict is the same with the arguments exchanged is not stated for types with `any`; a function without a return type, and the difference between a nil and an empty substitution, are not modelled.
- Unification.Solver.UnifyInto: stops at the first binding that makes the substitution cyclic (outcome Knot), because what the source does from there on need not end.
- Polymorphism.Counter.FreshTypeVar: the 64-bit counter does not wrap around; that collectFreeVars fills a map and FreeTypeVars sorts it is not modelled.
- OperatorTables.CheckBinary: the types of the operands are given; that the right side of a logical operator is checked in a narrowed environment is NarrowingSoundness.NarrowingSound.
- Precedence.FromExpr: constant folding of unary operators in FromUnary.
- Narrowing.OptionNarrowing: conditions are evaluated in one store; assignments inside a condition, and match-arm narrowing, are not modelled.
- QueryPlan.BuildQueryPlan: the checker is a parameter; group, sort, skip, take and select stages, function literals, and queries or matches inside conditions.
- Effects.StmtTotal: only the statements and expressions the walkers visit; effects of lambdas bound with `let` are not tracked, as in the source.
- JsonRpc.NextInv: payloads are opaque, and frames are written and read whole; encoding errors and the process behind the pipe.
- MatchPass.PassPreserves: the traversal works on values, where the source updates one tree in place (sorting one statement's arms in place is MatchArms.Canonicalize); an error stops it, and the half-sorted tree is not kept.
- TomlTables.SetKeyIs: the current table is named by its path through last elements, where the source holds a reference to it.
- TomlParser.Parser.ParseDocument: line and column numbers; what strconv makes of a number's digits (range errors, floats).
- TomlPrint.QuoteParsesIff: strings are sequences of characters, so invalid UTF-8 is not modelled; which characters are printable is a parameter.
- PyLockRun.ParseFile: lower case is a parameter, one character at a time; when two keys are the same in lower case either may win.
- PyTypeParser.ParsePyType: strings are bytes; only ASCII white space is trimmed; QualifiedName.
- Versions.Parse: strings are sequences of characters, so invalid UTF-8 is not modelled.
- SpecifierText.ClauseIsRead: the original source text that a clause keeps for diagnostics.
- Subtyping.SubtypeTransitive: functions without a return type.
- numericJoin, equalTypes and the expression checkers other than the operator chain: case tables.
- Generalise and envFreeVars of types/poly.go: they only collect what Polymorphism.FreeVarsAreApplied describes.
- FromLockfile, lock diffing, tag and policy selectors: copying and small case tables.
- File, network, subprocess and clock code, and the text emitters without an inverse.
- The legacy unify of types/unify.go: asymmetric and without an occurs check.
