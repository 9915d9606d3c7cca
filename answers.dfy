/**
 * How the scaffolding tool turns the lines typed at its prompts into
 * configuration values (create.js:72-82, 129-138).
 */
module Answers {
  import opened Text

  /**
   * The value a prompt resolves to: `answer || defVal` (create.js:76). The
   * line is taken as typed, without trimming; only the empty line falls
   * back to the default.
   */
  function Resolve(answer: string, default: string): (r: string)
    ensures r == answer || r == default
    ensures answer != "" ==> r == answer
    ensures r == "" <==> answer == "" && default == ""
  {
    if answer == "" then default else answer
  }

  /** The default of the yes/no prompts. */
  const YesNoDefault := "Y/n"

  /** An empty answer to a yes/no prompt means yes. */
  lemma EmptyAnswerIsYes()
    ensures IsYes(Resolve("", YesNoDefault))
  {
    IsYesIff(YesNoDefault);
  }

  /**
   * The visibility stored in the configuration: the string "true" for a
   * yes, "false" otherwise (create.js:134).
   */
  function PrivateFlag(answer: string): (flag: string)
    ensures flag == "true" || flag == "false"
    ensures flag == "true" <==> |answer| > 0 && (answer[0] == 'y' || answer[0] == 'Y')
  {
    IsYesIff(answer);
    if IsYes(answer) then "true" else "false"
  }

  /**
   * The default of the "Git repo" prompt: a GitHub URL built from the
   * author answer and the project name (create.js:132).
   */
  function DefaultRepoUrl(author: string, name: string): string
  {
    "https://github.com/" + author + "/" + name + ".git"
  }
}
