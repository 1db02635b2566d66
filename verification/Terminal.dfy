/** What every terminal session has in common: the command that saves, and how far a session gets. */
module Terminal {

  const SAVE: string := "system configuration save"

  /** How a session ends: normally, or with an error after some commands. */
  datatype Ending = Whole | Broken(after: nat)

  /** The commands that get executed. */
  function Executed(e: Ending, cmds: seq<string>): seq<string> {
    match e
    case Whole => cmds
    case Broken(k) => if k < |cmds| then cmds[..k] else cmds
  }

  lemma ExecutedPrefix(e: Ending, cmds: seq<string>) returns (k: nat)
    ensures k <= |cmds| && Executed(e, cmds) == cmds[..k]
    ensures e.Whole? ==> k == |cmds|
    ensures k == 0 <==> e == Broken(0) || cmds == []
  {
    k := |Executed(e, cmds)|;
    assert cmds[..|cmds|] == cmds;
  }
}
