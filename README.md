# EclipseMethod — a Dafny model

Lombok's `EclipseMethod` is a facade over one method-like declaration of the
Eclipse compiler's parse tree (`AbstractMethodDeclaration`): a method, a
constructor or the static initialiser. Lombok handlers use it to read and
change the declaration's modifiers, to test its return type by name, to
install a generated body, and to find annotations and the enclosing method.

The model keeps what the facade itself decides. Everything it hands to the
host compiler or to lombok's AST builder stays outside.

- `AccessFlags` (access_flags.dfy): the method access flags of section 4.6
  (Table 4.6-A) of the Java Virtual Machine Specification as `bv32` constants.
  - `LevelOf` reads an access level off a modifiers word.
  - `PackagePrivate` and `WithAccess` give the word each `make*` leaves.
  - Lemmas cover round-trips, idempotence, last-wins and untouched bits.
- `JavaLang` (java_lang.dfy): the Java value shapes the model needs.
  - `Option` stands for a nullable reference.
  - `Result` is a returned value or a thrown `ClassCastException`.
  - `EndsWith` is `String.endsWith`.
- `TypeNames` (type_names.dfy): a type name as identifier segments, and
  `Join`, the '.'-join that `returns(String)` builds.
- `Annotations` (annotations.dfy): annotations as type strings. Holds the
  filter that drops SuppressWarnings annotations and the rewritten list that
  installing a body produces.
- `EclipseAst` (eclipse_ast.dfy): the parse-tree and lombok-node shapes.
  - The class `AbstractMethodDeclaration` has mutable `modifiers`, `bits`,
    `statements`, `annotations` and `arguments` fields, plus its concrete
    class (method with an optional return type, constructor, or `Clinit`).
  - `EclipseNode` is a node with a kind, a wrapped parse-tree node and an
    optional parent.
- `EclipseMethods` (eclipse_method.dfy): the class `EclipseMethod`.
  - The `make*` methods update `decl.modifiers` in place.
  - `Body` overwrites `bits`, `statements` and `annotations`.
  - `Returns`, `GetAnnotation`, `HasNonFinalArgument` and the static
    `MethodOf` are the loops of the source.
  - Each is proved against the specification functions above.

A few reading choices:
- Null arrays are `None`, and `Arrays.isEmpty` reads as "null or length 0".
- `returnType()` casts anything that is not a constructor to
  `MethodDeclaration`. For the static initialiser (`Clinit`) that cast throws,
  so `Returns` ends in `Thrown(ClassCastException)` there.
- `getAnnotation` casts every ANNOTATION-kind child to `Annotation`. The model
  keeps that cast's failure as an error path as well.

## Model

| member | source | states |
|---|---|---|
| `AccessFlags.Bit` | src/eclipse/lombok/eclipse/handlers/ast/EclipseMethod.java:203-220 | The flag each `make*` ORs in after clearing: ACC_PRIVATE, ACC_PROTECTED or ACC_PUBLIC. It lies inside the access mask, and package access has none. |
| `AccessFlags.LevelOf` | src/eclipse/lombok/eclipse/handlers/ast/EclipseMethod.java:136-141 | PACKAGE exactly when none of the three access bits is set. Otherwise the returned level's bit is set. Public wins over protected, and protected over private. |
| `AccessFlags.PackagePrivate` | src/eclipse/lombok/eclipse/handlers/ast/EclipseMethod.java:208-210 | No access bit is left set, and every other bit is the same as before. |
| `AccessFlags.WithAccess` | src/eclipse/lombok/eclipse/handlers/ast/EclipseMethod.java:203-220 | The word a `make*` leaves reads back as the requested level. It keeps every non-access bit and holds only that level's access bit (none for package). |
| `AccessFlags.PackageIsWithAccess` | src/eclipse/lombok/eclipse/handlers/ast/EclipseMethod.java:208-210 | `makePackagePrivate`'s word is the `make*` word for package access, so idempotence, last-wins and the kept flags hold for it too. |
| `AccessFlags.WithAccessIdempotent` | src/eclipse/lombok/eclipse/handlers/ast/EclipseMethod.java:203-220 | Applying a `make*` twice yields the same modifiers as applying it once; with `PackageIsWithAccess` this covers `makePackagePrivate` as well. |
| `AccessFlags.WithAccessLastWins` | src/eclipse/lombok/eclipse/handlers/ast/EclipseMethod.java:203-220 | Of two successive `make*` calls only the second matters, whatever the first was, `makePackagePrivate` included (as the PACKAGE level). |
| `AccessFlags.WithCurrentLevel` | src/eclipse/lombok/eclipse/handlers/ast/EclipseMethod.java:136-220 | Re-granting the level a word already reads as leaves the word unchanged exactly when it holds no other access bit. |
| `AccessFlags.WithAccessKeepsOtherFlags` | src/eclipse/lombok/eclipse/handlers/ast/EclipseMethod.java:208-210 | Static, final and synchronized flags survive every `make*`. |
| `EclipseMethods.EclipseMethod.MakePackagePrivate` | src/eclipse/lombok/eclipse/handlers/ast/EclipseMethod.java:208-210 | The new modifiers are `PackagePrivate` of the old ones, which is `WithAccess(old, PACKAGE)`; `accessLevel()` then reads PACKAGE, non-access bits are kept, and no other field changes. |
| `EclipseMethods.EclipseMethod.MakePrivate` | src/eclipse/lombok/eclipse/handlers/ast/EclipseMethod.java:203-206 | The new modifiers are `WithAccess(old, PRIVATE)`, `accessLevel()` then reads PRIVATE, and no other field changes. |
| `EclipseMethods.EclipseMethod.MakeProtected` | src/eclipse/lombok/eclipse/handlers/ast/EclipseMethod.java:212-215 | The new modifiers are `WithAccess(old, PROTECTED)`, `accessLevel()` then reads PROTECTED, and no other field changes. |
| `EclipseMethods.EclipseMethod.MakePublic` | src/eclipse/lombok/eclipse/handlers/ast/EclipseMethod.java:217-220 | The new modifiers are `WithAccess(old, PUBLIC)`, `accessLevel()` then reads PUBLIC, and no other field changes. |
| `EclipseMethods.EclipseMethod.Access` | src/eclipse/lombok/eclipse/handlers/ast/EclipseMethod.java:136-141 | `accessLevel()` of the declaration: PACKAGE exactly when no access bit is set, otherwise a level whose bit is set (priority as in `LevelOf`). |
| `EclipseMethods.EclipseMethod.IsConstructor` | src/eclipse/lombok/eclipse/handlers/ast/EclipseMethod.java:151-153 | True exactly for a constructor declaration, that is, for neither an ordinary method nor the static initialiser. |
| `EclipseMethods.EclipseMethod.IsStatic` | src/eclipse/lombok/eclipse/handlers/ast/EclipseMethod.java:147-149 | Never true for a constructor, and true only when ACC_STATIC is set (the converse is `StaticAndSynchronizedFlags`). |
| `EclipseMethods.EclipseMethod.IsSynchronized` | src/eclipse/lombok/eclipse/handlers/ast/EclipseMethod.java:143-145 | Never true for a constructor, and true only when ACC_SYNCHRONIZED is set (the converse is `StaticAndSynchronizedFlags`). |
| `EclipseMethods.EclipseMethod.IsEmpty` | src/eclipse/lombok/eclipse/handlers/ast/EclipseMethod.java:159-161 | True when the statements array is null or has no element; `Body` ties it to whether any statement was built. |
| `EclipseMethods.EclipseMethod.HasArguments` | src/eclipse/lombok/eclipse/handlers/ast/EclipseMethod.java:195-197 | True when the arguments array is non-null and non-empty; `HasNonFinalArgument` implies it. |
| `EclipseMethods.EclipseMethod.StaticAndSynchronizedFlags` | src/eclipse/lombok/eclipse/handlers/ast/EclipseMethod.java:143-153 | A constructor is never static or synchronized, whatever its bits. Any other declaration is static or synchronized exactly when that flag is set. |
| `EclipseMethods.EclipseMethod.Returns` | src/eclipse/lombok/eclipse/handlers/ast/EclipseMethod.java:103-121 | Constructors and missing return types give false, and the static initialiser's cast throws. Otherwise the result is whether the '.'-joined segments end with the given name, so the empty name matches any return type. |
| `TypeNames.Join` | src/eclipse/lombok/eclipse/handlers/ast/EclipseMethod.java:106-113 | The StringBuilder loop's string. It ends with the last segment. That it begins with the first segment is `JoinStartsWithHead`, and that it contains a '.' once there are two segments is `JoinHasDot`. |
| `TypeNames.JoinStartsWithHead` | src/eclipse/lombok/eclipse/handlers/ast/EclipseMethod.java:106-113 | The joined name begins with the first segment, since no separator is written before it. |
| `TypeNames.JoinHasDot` | src/eclipse/lombok/eclipse/handlers/ast/EclipseMethod.java:106-113 | A name of two or more segments contains a '.' separator. |
| `TypeNames.JoinEndsWithTail` | src/eclipse/lombok/eclipse/handlers/ast/EclipseMethod.java:99-115 | A joined type name ends with the join of every tail of its segments. So both the simple name (what `returns(Class)` passes) and the full qualified name match. |
| `TypeNames.SuffixOfSimpleNameMatches` | src/eclipse/lombok/eclipse/handlers/ast/EclipseMethod.java:103-115 | Any string the last segment ends with also ends the joined name, so `returns(t)` is true whenever the simple name ends with `t`. |
| `TypeNames.SuffixIsNotSegmentAware` | src/eclipse/lombok/eclipse/handlers/ast/EclipseMethod.java:113-114 | The match is on characters, not segments: `java.util.HashMap` ends with `Map`. |
| `Annotations.IsSuppressWarnings` | src/eclipse/lombok/eclipse/handlers/ast/EclipseMethod.java:233 | An annotation is dropped when its printed type ends in "SuppressWarnings", qualified or not; the filter lemmas below are stated with it. |
| `Annotations.WithoutSuppressWarnings` | src/eclipse/lombok/eclipse/handlers/ast/EclipseMethod.java:230-236 | The kept annotations come from the original list, none of them is a SuppressWarnings annotation, and the list does not grow. |
| `Annotations.KeepsOthers` | src/eclipse/lombok/eclipse/handlers/ast/EclipseMethod.java:232-236 | Every original annotation whose type does not end in "SuppressWarnings" is kept. |
| `Annotations.Distributes` | src/eclipse/lombok/eclipse/handlers/ast/EclipseMethod.java:232-236 | Filtering a concatenation is concatenating the filtered parts, so kept annotations stay in their original relative order. |
| `Annotations.UnchangedWhenClean` | src/eclipse/lombok/eclipse/handlers/ast/EclipseMethod.java:232-236 | A list with no SuppressWarnings annotation passes the filter unchanged. |
| `Annotations.FilterIdempotent` | src/eclipse/lombok/eclipse/handlers/ast/EclipseMethod.java:232-236 | Filtering twice equals filtering once. |
| `Annotations.Rewritten` | src/eclipse/lombok/eclipse/handlers/ast/EclipseMethod.java:230-238 | The built annotation is the last element. A null original list gives just that annotation. |
| `Annotations.SuppressAllIsTheOnlyOne` | src/eclipse/lombok/eclipse/handlers/ast/EclipseMethod.java:230-238 | With a SuppressWarnings annotation appended, the rewritten list holds exactly one SuppressWarnings annotation, and it is last. |
| `Annotations.RewriteIdempotent` | src/eclipse/lombok/eclipse/handlers/ast/EclipseMethod.java:226-239 | Installing a body twice leaves the same annotation list as installing it once. |
| `EclipseMethods.EclipseMethod.Body` | src/eclipse/lombok/eclipse/handlers/ast/EclipseMethod.java:226-239 | The do-not-touch bit is set and no bit cleared. The statements become the built ones, so `isEmpty()` holds iff none were built. The annotation list becomes `Rewritten` of the old one, and `modifiers`, `arguments` and the kind are untouched. |
| `EclipseMethods.EclipseMethod.Matches` | src/eclipse/lombok/eclipse/handlers/ast/EclipseMethod.java:178-179 | A child counts as a match when it is of kind ANNOTATION, wraps an annotation, and the host's matcher accepts it for the type name; `GetAnnotation`'s contract is stated with it. |
| `EclipseMethods.EclipseMethod.GetAnnotation` | src/eclipse/lombok/eclipse/handlers/ast/EclipseMethod.java:175-184 | Returns the position of the last ANNOTATION-kind child that matches the type name, with no match after it, or none when nothing matches. It throws exactly when some ANNOTATION-kind child does not wrap an annotation. |
| `EclipseAst.IsNonFinal` | src/eclipse/lombok/eclipse/handlers/ast/EclipseMethod.java:188 | An argument is non-final when its own modifiers lack ACC_FINAL; `HasNonFinalArgument`'s contract is stated with it. |
| `EclipseMethods.EclipseMethod.HasNonFinalArgument` | src/eclipse/lombok/eclipse/handlers/ast/EclipseMethod.java:186-197 | True iff the arguments array exists and some argument lacks ACC_FINAL, so false with no arguments. True implies `hasArguments()`. |
| `EclipseAst.IsMethodDeclaration` | src/eclipse/lombok/eclipse/handlers/ast/EclipseMethod.java:323 | A lombok node wraps a method-like declaration (the `instanceof AbstractMethodDeclaration` test). The facade's constructor requires it, and `MethodOf` stops at the first node that passes it. |
| `EclipseAst.SelfAndAncestors` | src/eclipse/lombok/eclipse/handlers/ast/EclipseMethod.java:321-325 | The chain starts at the node, each entry's `up()` is the next, and the last has no parent. |
| `EclipseMethods.EclipseMethod.MethodOf` | src/eclipse/lombok/eclipse/handlers/ast/EclipseMethod.java:321-327 | A null node gives null. Otherwise the result is the nearest self-or-ancestor wrapping an AbstractMethodDeclaration, with none nearer, or null exactly when no node on the chain is one. |
| `EclipseMethods.EclipseMethod.constructor` | src/eclipse/lombok/eclipse/handlers/ast/EclipseMethod.java:66-73 | A facade is built only over a node wrapping a method-like declaration, and `get()` is that declaration. |

## Left out

- The `build(...)` overloads: they delegate to lombok's AST builder, which is not part of this model. `Body` takes the built statements and the built `SuppressWarnings("all")` annotation as parameters. The lombok statements they are built from are not modelled.
- `setGeneratedByAndCopyPos` in `body`: it sets source positions and the generated-by marker through a helper that is not part of this model.
- `replaceReturns`, `replaceVariableName`, `forceQualifiedThis`: they run visitor classes that are not part of this model.
- `returns()`, `boxedReturns()`, `statements()`, `annotations()`, `arguments(...)`, `typeParameters()`, `thrownExceptions()`: they only wrap compiler nodes in lombok AST constructors that are not part of this model.
- `isAbstract`, `toString`, `rebuild`, `surroundingType`, `name`, `get`, `node`: thin calls into the host compiler or lombok's node tree.
- `Eclipse.matchesType`: it is not part of this model. `GetAnnotation` takes it as a function parameter.
- `ECLIPSE_DO_NOT_TOUCH_FLAG`: its value is defined outside this model, so it is a `bv32` constant with no given value.
- The overloads `returns(Class)`, `getAnnotation(Class)`, `body(Statement...)` and `body(Block)`: they only convert their argument (a class name, an array, a block's statements) and call the modelled overload.
- EclipseMethods.EclipseMethod.constructor: the private constructor throws IllegalArgumentException for a node not wrapping a method declaration. The model states this as a requires, because its only caller, `methodOf`, never passes such a node. The `source` node and the builder it creates are not modelled.
- EclipseMethods.EclipseMethod.MethodOf: returns the found lombok node rather than a newly allocated facade around it.
- EclipseMethods.EclipseMethod.GetAnnotation: returns the found child's position in `node().down()` rather than the child itself.
- EclipseMethods.EclipseMethod.MakePrivate: its own contract ties the new word to `WithAccess` and the level read back. That non-access bits are kept is stated on `AccessFlags.WithAccess`, not repeated here.
- EclipseMethods.EclipseMethod.MakeProtected: the same as MakePrivate; the kept non-access bits are stated on `AccessFlags.WithAccess`.
- EclipseMethods.EclipseMethod.MakePublic: the same as MakePrivate; the kept non-access bits are stated on `AccessFlags.WithAccess`.
- Lombok's `AccessLevel` enum: only the four values `accessLevel()` can return are modelled.
- The children and parent links of lombok's node tree are snapshots. Rebuilding the node tree after a change is not modelled.
