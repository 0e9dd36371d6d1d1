/**
  Vocabulary shared by the plugin-method generator: the plugin kind, the
  language-feature profile of the project, the IDE queries the generator
  delegates to, and the literal constants it compares against.
 */
module PluginTypes {

  /** Where the plugin's code runs relative to the intercepted method. */
  datatype PluginKind = Before | After | Around

  /** The kind's name as the enum's `toString()` renders it. */
  function KindName(kind: PluginKind): string
  {
    match kind
    case Before => "before"
    case After => "after"
    case Around => "around"
  }

  /**
    The PHP language features the generator asks the project about: scalar
    type hints, nullable types, return-type declarations and `void` returns.
   */
  datatype FeatureProfile = FeatureProfile(
    scalarTypeHints: bool,
    nullables: bool,
    returnTypes: bool,
    returnVoid: bool
  )

  /**
    Queries answered by the IDE's PHP code model. `isPrimitive(t)` stands for
    `PhpType.isPrimitiveType(t)`; `presentation(types, global)` for
    `PhpDocUtil.getTypePresentation` of a type set, rendered with the
    use-operator scope of the element when `global` holds and with no scope
    otherwise.
   */
  datatype Host = Host(
    isPrimitive: string -> bool,
    presentation: (set<string>, bool) -> string
  )

  const MIXED_RETURN_TYPE: string := "mixed"
  const STATIC_MODIFIER: string := "static"
  const PHP_TRUE: string := "true"
  const PHP_FALSE: string := "false"
  const PHP_NULL: string := "null"
  const VOID_RETURN_TYPE: string := "void"
  const ARRAY_TYPE: string := "array"
  const CALLABLE_PARAM: string := "callable"

  /** Separates the alternatives of a doc-comment union type. */
  const DOC_TYPE_SEPARATOR: char := '|'

  /** PHP's namespace separator. */
  const FQN_SEPARATOR: char := '\\'

  /** The fully qualified null type that `filterNullCaseInsensitive` removes. */
  const NULL_TYPE: string := "\\null"
}
