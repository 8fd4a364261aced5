/**
 * PathContext and PathsCompiler.  The context is an immutable record of
 * optional substitution values, filled by a builder; the compiler is not
 * part of this model and enters as two deterministic functions, one for
 * each overload of PathsCompiler.compile.
 */
module Paths {

  datatype Option<T> = None | Some(value: T)

  /** The substitution values a metric path template may refer to; unset ones are None. */
  datatype PathContext = PathContext(
    group: Option<string>,
    topic: Option<string>,
    subscription: Option<string>,
    httpCode: Option<int>,
    httpCodeFamily: Option<string>,
    executorName: Option<string>,
    schemaRepoType: Option<string>,
    kafkaCluster: Option<string>,
    oAuthProvider: Option<string>)
  {
    function WithGroup(group: string): PathContext { this.(group := Some(group)) }
    function WithTopic(topic: string): PathContext { this.(topic := Some(topic)) }
    function WithSubscription(subscription: string): PathContext { this.(subscription := Some(subscription)) }
    function WithHttpCode(httpCode: int): PathContext { this.(httpCode := Some(httpCode)) }
    function WithHttpCodeFamily(family: string): PathContext { this.(httpCodeFamily := Some(family)) }
  }

  /** PathContext.pathContext(): a builder with nothing set. */
  const EmptyContext: PathContext := PathContext(None, None, None, None, None, None, None, None, None)

  /**
   * The injected PathsCompiler.  Its template language is not modelled:
   * each overload is an arbitrary but fixed function, so equal arguments
   * always give equal paths and nothing else is known about them.
   */
  datatype PathsCompiler = PathsCompiler(
    compilePath: string -> string,
    compileWithContext: (string, PathContext) -> string)
  {
    /** compile(path) */
    function Compile(path: string): string { compilePath(path) }

    /** compile(path, context) */
    function CompileWith(path: string, context: PathContext): string { compileWithContext(path, context) }
  }
}
