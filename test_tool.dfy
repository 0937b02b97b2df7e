/**
 * `TestTool` (interpreter/tools/test.py): three fixed answers selected by
 * function name.  Every call produces output; an unknown name is reported
 * in the output, not as an error.
 */
module TestTool {

  import opened Base
  import opened Text

  const UnknownPrefix := "Unknown function: "

  predicate IsKnown(functionName: string)
  {
    functionName == "test1" || functionName == "test2" || functionName == "test3"
  }

  /** The name `test2` greets: the given user name when it is present and non-empty, else `user`. */
  function Greeted(userName: Option<string>): (n: string)
    ensures n != []
    ensures userName.Some? && userName.value != [] ==> n == userName.value
    ensures !(userName.Some? && userName.value != []) ==> n == "user"
  {
    if userName.Some? && userName.value != [] then userName.value else "user"
  }

  /** `TestTool.__call__`. */
  function Call(functionName: string := "test1", userName: Option<string> := None): (r: ToolResult)
    ensures r.Output?
    ensures StartsWith(r.text, UnknownPrefix) <==> !IsKnown(functionName)
    ensures !IsKnown(functionName) ==> r.text[|UnknownPrefix|..] == functionName
    ensures functionName == "test1" ==> r.text == "hello world"
    ensures functionName == "test2" ==> StartsWith(r.text, "hello ") && r.text[6..] == Greeted(userName)
    ensures functionName == "test3" ==> r.text == "goodbye"
  {
    if functionName == "test1" then Output("hello world")
    else if functionName == "test2" then
      var text := "hello " + Greeted(userName);
      assert text[0] != UnknownPrefix[0];
      Output(text)
    else if functionName == "test3" then Output("goodbye")
    else Output(UnknownPrefix + functionName)
  }

  /** The call with no arguments runs `test1`. */
  lemma DefaultCallGreetsWorld()
    ensures Call() == Output("hello world")
  {
  }

  /**
   * `hello world` comes from `test1`, and from `test2` exactly when the
   * user is called `world`.
   */
  lemma HelloWorldSources(functionName: string, userName: Option<string>)
    ensures Call(functionName, userName).text == "hello world" <==>
      functionName == "test1" || (functionName == "test2" && userName == Some("world"))
  {
    var r := Call(functionName, userName);
    if functionName == "test2" && r.text == "hello world" {
      assert r.text[6..] == "world";
    }
    if !IsKnown(functionName) {
      assert r.text[0] == UnknownPrefix[0];
    }
  }

  /** Different unknown names are reported differently. */
  lemma UnknownNamesDistinguished(a: string, b: string)
    requires !IsKnown(a) && !IsKnown(b) && a != b
    ensures Call(a) != Call(b)
  {
    assert Call(a).text[|UnknownPrefix|..] == a;
  }

}
