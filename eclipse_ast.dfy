/** The parts of the host compiler's parse tree and of lombok's node tree over
    it that a method facade reads and writes. */
module EclipseAst {
  import opened JavaLang
  import opened AccessFlags
  import opened TypeNames
  import opened Annotations

  /** The bit lombok sets in a declaration's `bits` word to tell the host
      compiler to leave the generated body alone. Its value is defined outside
      this model; only its being one fixed word matters here. */
  const ECLIPSE_DO_NOT_TOUCH_FLAG: bv32

  /** What a lombok node stands for. */
  datatype Kind = COMPILATION_UNIT | TYPE | FIELD | INITIALIZER | METHOD | ANNOTATION | ARGUMENT | LOCAL | STATEMENT

  /** A statement built from lombok's own AST; the model never looks inside. */
  datatype Statement = Statement(token: nat)

  /** A formal argument of a method: its name and its own modifiers word. */
  datatype Argument = Argument(name: string, modifiers: bv32)

  /** An argument without the final flag. */
  predicate IsNonFinal(arg: Argument)
  {
    arg.modifiers & ACC_FINAL == 0
  }

  /** The concrete class of a method-like declaration: an ordinary method
      (whose return type reference may be missing), a constructor, or the
      static initialiser the compiler represents as a method. */
  datatype DeclarationClass =
    | MethodDeclaration(returnType: Option<TypeName>)
    | ConstructorDeclaration
    | Clinit

  /** A method-like declaration of the host compiler's parse tree. The arrays
      the compiler may leave `null` are `Option`s. */
  class AbstractMethodDeclaration {
    const declarationClass: DeclarationClass
    var modifiers: bv32
    var bits: bv32
    var statements: Option<seq<Statement>>
    var annotations: Option<seq<Annotation>>
    var arguments: Option<seq<Argument>>

    constructor (
      declarationClass: DeclarationClass, modifiers: bv32, bits: bv32,
      statements: Option<seq<Statement>>, annotations: Option<seq<Annotation>>,
      arguments: Option<seq<Argument>>)
      ensures this.declarationClass == declarationClass && this.modifiers == modifiers
      ensures this.bits == bits && this.statements == statements
      ensures this.annotations == annotations && this.arguments == arguments
    {
      this.declarationClass := declarationClass;
      this.modifiers := modifiers;
      this.bits := bits;
      this.statements := statements;
      this.annotations := annotations;
      this.arguments := arguments;
    }
  }

  /** What a lombok node wraps (its `get()`): a method-like declaration, an
      annotation, or some other parse-tree node. */
  datatype AstNode =
    | MethodDeclarationNode(decl: AbstractMethodDeclaration)
    | AnnotationNode(annotation: Annotation)
    | OtherNode(token: nat)

  /** A lombok node with its kind, the parse-tree node it wraps, and its
      parent (`up()`), `None` at the root. */
  datatype EclipseNode = EclipseNode(kind: Kind, get: AstNode, up: Option<EclipseNode>)

  /** The node wraps an AbstractMethodDeclaration. */
  predicate IsMethodDeclaration(node: EclipseNode)
  {
    node.get.MethodDeclarationNode?
  }

  /** The node followed by every node reached by walking `up()` until the
      root: each entry's parent is the next, and the last has none. */
  function SelfAndAncestors(node: EclipseNode): (chain: seq<EclipseNode>)
    ensures |chain| >= 1 && chain[0] == node
    ensures forall i :: 0 <= i < |chain| - 1 ==> chain[i].up == Some(chain[i + 1])
    ensures chain[|chain| - 1].up.None?
    decreases node
  {
    match node.up
    case None => [node]
    case Some(parent) => [node] + SelfAndAncestors(parent)
  }
}
