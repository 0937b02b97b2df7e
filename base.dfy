/**
 * The result convention the tools hand back to the agent host, and the
 * optional-value wrapper used throughout.  The host-side definition of the
 * result type (interpreter/tools/base.py) is not part of this model; only its
 * two-way shape is: a tool answers with output text or with an error text,
 * never with both.
 */
module Base {

  datatype Option<+T> = None | Some(value: T)

  /** `ToolResult(output=...)` or `ToolResult(error=...)`. */
  datatype ToolResult = Output(text: string) | Failure(message: string)

}
