/**
 * `MissingRequestMetaVariableException`: the error a request raises when a
 * metadata variable it is asked for is absent.
 */
module MetaErrors {
  import opened Wrappers

  /** A PHP exception: its class, message, code and the exception it wraps (`null` when none). */
  datatype Exception = Exception(className: string, message: string, code: int, previous: Option<Exception>)

  const MissingClass := "MissingRequestMetaVariableException"
  const MessagePrefix := "Request meta-variable "
  const MessageSuffix := " was not set."

  /** Reads the variable name back out of a missing-variable message. */
  function VariableNameOf(message: string): Option<string> {
    var p, s := |MessagePrefix|, |MessageSuffix|;
    if |message| >= p + s && message[..p] == MessagePrefix && message[|message| - s..] == MessageSuffix then
      Some(message[p..|message| - s])
    else
      None
  }

  /**
   * `new MissingRequestMetaVariableException(variableName, code, previous)`: a `null` code
   * becomes 0 and `previous` is passed through; the message is exactly
   * "Request meta-variable <name> was not set.", so it contains the name, and the name can be
   * read back from it.
   */
  function MissingRequestMetaVariable(variableName: string, code: Option<int>, previous: Option<Exception>): (e: Exception)
    ensures e.className == MissingClass
    ensures code.None? ==> e.code == 0
    ensures code.Some? ==> e.code == code.value
    ensures e.previous == previous
    ensures e.message == "Request meta-variable " + variableName + " was not set."
    ensures e.message[|MessagePrefix|..|MessagePrefix| + |variableName|] == variableName
    ensures VariableNameOf(e.message) == Some(variableName)
  {
    var m := MessagePrefix + variableName + MessageSuffix;
    var p, s := |MessagePrefix|, |MessageSuffix|;
    assert m[..p] == MessagePrefix;
    assert m[|m| - s..] == MessageSuffix;
    assert m[p..|m| - s] == variableName;
    Exception(MissingClass, m, code.GetOr(0), previous)
  }

  /** Different variables give different messages. */
  lemma MessageInjective(a: string, b: string, code: Option<int>, previous: Option<Exception>)
    ensures MissingRequestMetaVariable(a, code, previous).message == MissingRequestMetaVariable(b, code, previous).message <==> a == b
  {
  }
}
