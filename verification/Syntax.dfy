/** Shared vocabulary: optional and fallible results, symbols, and the ordinary
    expression tree that sources, results, snapshots and faces are made of.  The
    constructors are those of the expression type of the source; numbers and other
    literals that no part inspects are kept as text. */
module Syntax {

  datatype Option<+T> = None | Some(value: T)

  datatype Result<+T, +E> = Ok(value: T) | Err(error: E) {
    predicate IsFailure() {
      Err?
    }

    function PropagateFailure<U>(): Result<U, E>
      requires Err?
    {
      Err(error)
    }

    function Extract(): T
      requires Ok?
    {
      value
    }
  }

  /** A symbol with an optional namespace; its text is what lookup keys carry. */
  datatype Symbol = Symbol(space: Option<string>, name: string) {
    function Text(): string {
      match space
      case None => name
      case Some(ns) => ns + "/" + name
    }
  }

  datatype Expr =
    | Nil
    | Bool(truth: bool)
    | Number(domain: Symbol, canonical: string)
    | Sym(symbol: Symbol)
    | Local(symbol: Symbol)
    | Str(text: string)
    | Bytes(bytes: seq<nat>)
    | List(items: seq<Expr>)
    | Vector(items: seq<Expr>)
    | Set(items: seq<Expr>)
    | Block(items: seq<Expr>)
    | Map(entries: seq<Entry>)
    | Call(operator: Expr, args: seq<Expr>)
    | Infix(op: Symbol, left: Expr, right: Expr)
    | Prefix(op: Symbol, arg: Expr)
    | Postfix(op: Symbol, arg: Expr)
    | Quote(quoted: Expr)
    | Annotated(inner: Expr, annotations: seq<Annotation>)
    | Extension(tag: Symbol, payload: Expr)

  datatype Entry = Entry(key: Expr, value: Expr)

  datatype Annotation = Annotation(name: Symbol, value: Expr)

  /** The keys and values of map entries, in order. */
  function EntryParts(entries: seq<Entry>): (r: seq<Expr>)
    ensures |r| == 2 * |entries|
    ensures forall i :: 0 <= i < |r| ==> (entries decreases to r[i])
  {
    if entries == [] then []
    else
      assert entries[0].key < entries[0] && entries[0].value < entries[0];
      [entries[0].key, entries[0].value] + EntryParts(entries[1..])
  }
}
