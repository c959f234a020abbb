/** The import writers: pure builders of the statement that replaces a matched one. */
module Writers {

  /** The keyword, a space, the bindings, then ` = require('`, the module and `');`. */
  function PipeGenericRequire(keyword: string, imports: string, moduleName: string): string {
    keyword + " " + imports + " = require('" + moduleName + "');"
  }

  function PipeLetRequire(imports: string, moduleName: string): string {
    PipeGenericRequire("let", imports, moduleName)
  }

  function PipeConstRequire(imports: string, moduleName: string): string {
    PipeGenericRequire("const", imports, moduleName)
  }

  function PipeVarRequire(imports: string, moduleName: string): string {
    PipeGenericRequire("var", imports, moduleName)
  }

  /** `import `, the bindings, ` from '`, the module and `';`: always single quotes and one semicolon. */
  function PipeImport(imports: string, moduleName: string): string {
    "import " + imports + " from '" + moduleName + "';"
  }

  /** The `ImportWriter` a match is dispatched to. */
  datatype ImportWriter = LetRequire | ConstRequire | VarRequire | Import

  function Write(w: ImportWriter, imports: string, moduleName: string): string {
    match w
    case LetRequire => PipeLetRequire(imports, moduleName)
    case ConstRequire => PipeConstRequire(imports, moduleName)
    case VarRequire => PipeVarRequire(imports, moduleName)
    case Import => PipeImport(imports, moduleName)
  }
}
