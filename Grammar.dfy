/**
 * The names of parse-tree terms, as the generator's `switch` statements on
 * `parseNode.Term.Name` see them (Lithium/Compiler/Generator.cs): one constructor
 * for each name a `case` tests, and `Other` for any other name, which the
 * generator reports as unrecognised.
 */
module Grammar {

  datatype Term =
    // expression terms
    | Nil | True | False | Number | String | Variable
    // statement terms the generator compiles
    | Label | Goto | Break | Scope | LocalFunction | ReturnStatement
    // statement terms it does not implement yet
    | GlobalAssignment | LocalAssignment | FunctionCall | ForLoop_Enumerable | ForLoop_Iterable
    | WhileLoop | RepeatLoop | IfStatement | GlobalFunction
    // a term with any other name
    | Other(name: string)
}
