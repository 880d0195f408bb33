/** The builtin command names of app/main.ts; they are also the keys of the callback map
    in app/utils.ts. */
module Builtins {
  const Names: seq<string> := ["echo", "exit", "type", "pwd", "cd"]

  predicate IsBuiltin(name: string) {
    name in Names
  }
}
