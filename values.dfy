/** Python values as they appear in configuration documents, flat dictionaries
    and command-line namespaces, together with the error and result types that
    stand for the exceptions the library raises. */
module Values {

  datatype Option<T> = None | Some(value: T)

  /** The Python exceptions the modelled code can raise. */
  datatype Error =
    | KeyError(key: string)              // a missing dictionary key
    | TypeError                          // a non-mapping used as a mapping, a wrong-arity call, iterating None
    | AttributeError                     // `.items()` / `.get()` on a non-mapping
    | IndexError                         // `type_args[1]` on a tuple type with fewer than two arguments
    | ValueError                         // unsupported configuration file extension
    | MissingArguments(names: seq<string>)  // a record constructor called without its required fields
    | UnexpectedArgument(keyword: string)   // a record constructor called with a keyword that names no field
    | StopIteration                      // `next` on an exhausted iterator

  datatype Result<T> = Ok(value: T) | Err(error: Error)

  /** A configuration value: JSON/YAML/TOML scalars, lists and mappings.
      A mapping keeps Python's insertion order, so it is a sequence of
      key/value pairs (see module PyDict for the dictionary operations). */
  datatype Value =
    | Null
    | Bool(b: bool)
    | Int(i: int)
    | Str(s: string)
    | List(items: seq<Value>)
    | Dict(entries: seq<(string, Value)>)

  /** The entries of a mapping, in insertion order. */
  type Entries = seq<(string, Value)>
}
