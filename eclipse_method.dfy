/** Lombok's facade over one method-like declaration of the host compiler:
    queries and updates of its modifiers, the return-type name test, the
    installation of a generated body, and the searches over its node. */
module EclipseMethods {
  import opened JavaLang
  import opened AccessFlags
  import opened TypeNames
  import opened Annotations
  import opened EclipseAst

  class EclipseMethod {
    /** The lombok node of the declaration (`node()`). */
    const methodNode: EclipseNode
    /** The nodes lombok lists under it (`node().down()`). */
    const children: seq<EclipseNode>
    /** The declaration the node wraps (`get()`). */
    const decl: AbstractMethodDeclaration

    /** Only `methodOf` builds a facade, and only over a node that wraps a
        method-like declaration. */
    constructor (methodNode: EclipseNode, children: seq<EclipseNode>)
      requires IsMethodDeclaration(methodNode)
      ensures this.methodNode == methodNode && this.children == children
      ensures this.decl == methodNode.get.decl
    {
      this.methodNode := methodNode;
      this.children := children;
      this.decl := methodNode.get.decl;
    }

    /** `accessLevel()`: PACKAGE exactly when no access bit is set, and
        otherwise a level whose bit is set. */
    function Access(): (r: AccessLevel)
      reads decl
      ensures r == PACKAGE <==> decl.modifiers & ACCESS_MASK == 0
      ensures r != PACKAGE ==> decl.modifiers & Bit(r) != 0
    {
      LevelOf(decl.modifiers)
    }

    /** `isConstructor()`: the declaration is a ConstructorDeclaration, that
        is, neither an ordinary method nor the static initialiser. */
    predicate IsConstructor()
      ensures IsConstructor() <==> !decl.declarationClass.MethodDeclaration? && !decl.declarationClass.Clinit?
    {
      decl.declarationClass.ConstructorDeclaration?
    }

    /** `isStatic()`: never for a constructor, and only with the static flag. */
    predicate IsStatic()
      reads decl
      ensures IsConstructor() ==> !IsStatic()
      ensures IsStatic() ==> decl.modifiers & ACC_STATIC != 0
    {
      !IsConstructor() && decl.modifiers & ACC_STATIC != 0
    }

    /** `isSynchronized()`: never for a constructor, and only with the
        synchronized flag. */
    predicate IsSynchronized()
      reads decl
      ensures IsConstructor() ==> !IsSynchronized()
      ensures IsSynchronized() ==> decl.modifiers & ACC_SYNCHRONIZED != 0
    {
      !IsConstructor() && decl.modifiers & ACC_SYNCHRONIZED != 0
    }

    /** `isEmpty()`: the statements array is null or empty. */
    predicate IsEmpty()
      reads decl
    {
      decl.statements.None? || |decl.statements.value| == 0
    }

    /** `hasArguments()`: the arguments array is neither null nor empty. */
    predicate HasArguments()
      reads decl
    {
      decl.arguments.Some? && |decl.arguments.value| > 0
    }

    /** A constructor is never read as static or synchronized, whatever its
        bits; any other declaration is exactly when its flag is set. */
    lemma StaticAndSynchronizedFlags()
      ensures IsConstructor() ==> !IsStatic() && !IsSynchronized()
      ensures !IsConstructor() ==> (IsStatic() <==> decl.modifiers & ACC_STATIC != 0)
      ensures !IsConstructor() ==> (IsSynchronized() <==> decl.modifiers & ACC_SYNCHRONIZED != 0)
    {
    }

    /** `makePackagePrivate()`: clears the three access bits. */
    method MakePackagePrivate()
      modifies decl`modifiers
      ensures decl.modifiers == PackagePrivate(old(decl.modifiers))
      ensures decl.modifiers == WithAccess(old(decl.modifiers), PACKAGE)
      ensures Access() == PACKAGE
      ensures decl.modifiers & !ACCESS_MASK == old(decl.modifiers) & !ACCESS_MASK
    {
      PackageIsWithAccess(decl.modifiers);
      decl.modifiers := PackagePrivate(decl.modifiers);
    }

    /** `makePrivate()`. */
    method MakePrivate()
      modifies decl`modifiers
      ensures decl.modifiers == WithAccess(old(decl.modifiers), PRIVATE)
      ensures Access() == PRIVATE
    {
      ghost var before := decl.modifiers;
      MakePackagePrivate();
      decl.modifiers := decl.modifiers | Bit(PRIVATE);
      ClearThenGrant(before, PRIVATE);
    }

    /** `makeProtected()`. */
    method MakeProtected()
      modifies decl`modifiers
      ensures decl.modifiers == WithAccess(old(decl.modifiers), PROTECTED)
      ensures Access() == PROTECTED
    {
      ghost var before := decl.modifiers;
      MakePackagePrivate();
      decl.modifiers := decl.modifiers | Bit(PROTECTED);
      ClearThenGrant(before, PROTECTED);
    }

    /** `makePublic()`. */
    method MakePublic()
      modifies decl`modifiers
      ensures decl.modifiers == WithAccess(old(decl.modifiers), PUBLIC)
      ensures Access() == PUBLIC
    {
      ghost var before := decl.modifiers;
      MakePackagePrivate();
      decl.modifiers := decl.modifiers | Bit(PUBLIC);
      ClearThenGrant(before, PUBLIC);
    }

    /** `returns(typeName)`: whether the return type's dotted name ends with
        `typeName`. A constructor has no return type and never matches, nor
        does a method whose return type reference is missing; for the static
        initialiser the cast to MethodDeclaration throws. */
    method Returns(typeName: string) returns (r: Result<bool>)
      ensures decl.declarationClass.ConstructorDeclaration? ==> r == Ok(false)
      ensures decl.declarationClass.Clinit? ==> r == Thrown(ClassCastException)
      ensures decl.declarationClass.MethodDeclaration? ==>
        var returnType := decl.declarationClass.returnType;
        r == Ok(returnType.Some? && EndsWith(Join(returnType.value), typeName))
    {
      if IsConstructor() {
        return Ok(false);
      }
      if decl.declarationClass.Clinit? {
        return Thrown(ClassCastException);
      }
      var returnType := decl.declarationClass.returnType;
      if returnType.None? {
        return Ok(false);
      }
      var segments := returnType.value;
      var sb: string := "";
      var first := true;
      var i := 0;
      while i < |segments|
        invariant 0 <= i <= |segments|
        invariant first <==> i == 0
        invariant sb == Join(segments[..i])
      {
        JoinPrefixStep(segments, i);
        if first {
          first := false;
        } else {
          sb := sb + ".";
        }
        sb := sb + segments[i];
        i := i + 1;
      }
      assert segments[..i] == segments;
      return Ok(EndsWith(sb, typeName));
    }

    /** `body(statements)` with the builder's output given: `built` is what
        the statements are built into and `suppressAll` the built
        SuppressWarnings("all") annotation. The do-not-touch bit is added to
        `bits`, the statements are replaced, and the annotation list loses its
        SuppressWarnings annotations and gains `suppressAll` at its end. */
    method Body(built: seq<Statement>, suppressAll: Annotation)
      modifies decl`bits, decl`statements, decl`annotations
      ensures decl.bits == old(decl.bits) | ECLIPSE_DO_NOT_TOUCH_FLAG
      ensures decl.bits & ECLIPSE_DO_NOT_TOUCH_FLAG == ECLIPSE_DO_NOT_TOUCH_FLAG
      ensures old(decl.bits) & !decl.bits == 0
      ensures decl.statements == Some(built)
      ensures IsEmpty() <==> built == []
      ensures decl.annotations == Some(Rewritten(old(decl.annotations), suppressAll))
    {
      decl.bits := decl.bits | ECLIPSE_DO_NOT_TOUCH_FLAG;
      decl.statements := Some(built);
      var kept: seq<Annotation> := [];
      var original := decl.annotations;
      var source := if original.Some? then original.value else [];
      if original.Some? {
        for i := 0 to |source|
          invariant kept == WithoutSuppressWarnings(source[..i])
        {
          assert source[..i + 1][..i] == source[..i];
          if !EndsWith(source[i].typeString, "SuppressWarnings") {
            kept := kept + [source[i]];
          }
        }
        assert source[..|source|] == source;
      }
      kept := kept + [suppressAll];
      decl.annotations := Some(kept);
    }

    /** A child that is an annotation node matching `typeName`. */
    static predicate Matches(child: EclipseNode, typeName: string, matchesType: (Annotation, string) -> bool)
    {
      child.kind == ANNOTATION && child.get.AnnotationNode? && matchesType(child.get.annotation, typeName)
    }

    /** `getAnnotation(typeName)`, with the host's type matcher as
        `matchesType`: the position in `children` of the last annotation child
        that matches, or `None` when none does. An annotation child that does
        not wrap an annotation makes the cast throw. */
    method GetAnnotation(typeName: string, matchesType: (Annotation, string) -> bool)
      returns (r: Result<Option<nat>>)
      ensures r.Thrown? <==>
        exists i :: 0 <= i < |children| && children[i].kind == ANNOTATION && !children[i].get.AnnotationNode?
      ensures r == Ok(None) ==> forall i :: 0 <= i < |children| ==> !Matches(children[i], typeName, matchesType)
      ensures r.Ok? && r.value.Some? ==>
        r.value.value < |children| && Matches(children[r.value.value], typeName, matchesType) &&
        forall j :: r.value.value < j < |children| ==> !Matches(children[j], typeName, matchesType)
    {
      var found: Option<nat> := None;
      for i := 0 to |children|
        invariant forall j :: 0 <= j < i && children[j].kind == ANNOTATION ==> children[j].get.AnnotationNode?
        invariant found.None? ==> forall j :: 0 <= j < i ==> !Matches(children[j], typeName, matchesType)
        invariant found.Some? ==>
          found.value < i && Matches(children[found.value], typeName, matchesType) &&
          forall j :: found.value < j < i ==> !Matches(children[j], typeName, matchesType)
      {
        var child := children[i];
        if child.kind != ANNOTATION {
          continue;
        }
        if !child.get.AnnotationNode? {
          return Thrown(ClassCastException);
        }
        if matchesType(child.get.annotation, typeName) {
          found := Some(i);
        }
      }
      return Ok(found);
    }

    /** `hasNonFinalArgument()`: some argument lacks the final flag. */
    method HasNonFinalArgument() returns (r: bool)
      ensures r <==> (decl.arguments.Some? &&
                      exists i :: 0 <= i < |decl.arguments.value| && IsNonFinal(decl.arguments.value[i]))
      ensures r ==> HasArguments()
    {
      if HasArguments() {
        var args := decl.arguments.value;
        for i := 0 to |args|
          invariant forall j :: 0 <= j < i ==> !IsNonFinal(args[j])
        {
          if args[i].modifiers & ACC_FINAL == 0 {
            return true;
          }
        }
      }
      return false;
    }

    /** `methodOf(node)`: the nearest of `node` and its ancestors that wraps a
        method-like declaration, or `None` when there is none (or no node). */
    static method MethodOf(node: Option<EclipseNode>) returns (r: Option<EclipseNode>)
      ensures node.None? ==> r.None?
      ensures node.Some? ==>
        var chain := SelfAndAncestors(node.value);
        (r.None? <==> forall i :: 0 <= i < |chain| ==> !IsMethodDeclaration(chain[i])) &&
        (r.Some? ==> exists i :: (0 <= i < |chain| && chain[i] == r.value && IsMethodDeclaration(chain[i]) &&
                                  forall j :: 0 <= j < i ==> !IsMethodDeclaration(chain[j])))
    {
      if node.None? {
        return None;
      }
      ghost var chain := SelfAndAncestors(node.value);
      ghost var k := 0;
      var methodNode := node;
      while methodNode.Some? && !methodNode.value.get.MethodDeclarationNode?
        invariant 0 <= k <= |chain|
        invariant methodNode.Some? <==> k < |chain|
        invariant methodNode.Some? ==> chain[k] == methodNode.value
        invariant forall j :: 0 <= j < k ==> !IsMethodDeclaration(chain[j])
        decreases |chain| - k
      {
        assert k < |chain| - 1 ==> chain[k].up == Some(chain[k + 1]);
        methodNode := methodNode.value.up;
        k := k + 1;
      }
      if methodNode.Some? {
        assert IsMethodDeclaration(chain[k]);
      } else {
        assert k == |chain|;
      }
      r := methodNode;
      assert chain == SelfAndAncestors(node.value);
    }
  }
}
