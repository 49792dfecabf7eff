/**
 * The program in src/main.rs: an older copy of the standings code whose
 * `Team` and `Table` behave as `Team.TeamStats` and `Tables.Table` do, and
 * whose `parse_result` prints its error instead of returning it. Only what
 * differs is modelled here: the menu commands and the printing
 * `parse_result`.
 */
module App {
  import opened Wrappers
  import opened Text
  import opened Tables
  import opened Standings

  /** The entries of the menu. */
  datatype Command =
    | PrintTable
    | AddResult
    | ReadResultFile
    | ReadTableFile
    | SaveTableToFile
    | Exit

  /** `Commands::from_string`: the input lower-cased, then matched against
      the five digits and `exit`. */
  function FromString(s: string): (c: Option<Command>)
    ensures c.None? <==> ToLower(s) !in {"1", "2", "3", "4", "5", "exit"}
  {
    var t := ToLower(s);
    if t == "1" then Some(PrintTable)
    else if t == "2" then Some(AddResult)
    else if t == "3" then Some(ReadResultFile)
    else if t == "4" then Some(ReadTableFile)
    else if t == "5" then Some(SaveTableToFile)
    else if t == "exit" then Some(Exit)
    else None
  }

  /** Lower-casing gives a digit exactly when it was given that digit. */
  lemma LowerCharDigit(c: char, d: char)
    requires IsDigit(d)
    ensures LowerChar(c) == d <==> c == d
  {
  }

  /** The digit commands are recognised only as the bare digit. */
  lemma {:induction false} FromStringDigits(s: string)
    ensures FromString(s) == Some(PrintTable) <==> s == "1"
    ensures FromString(s) == Some(AddResult) <==> s == "2"
    ensures FromString(s) == Some(ReadResultFile) <==> s == "3"
    ensures FromString(s) == Some(ReadTableFile) <==> s == "4"
    ensures FromString(s) == Some(SaveTableToFile) <==> s == "5"
  {
    var t := ToLower(s);
    if |s| == 1 {
      LowerCharDigit(s[0], '1');
      LowerCharDigit(s[0], '2');
      LowerCharDigit(s[0], '3');
      LowerCharDigit(s[0], '4');
      LowerCharDigit(s[0], '5');
      assert t == [LowerChar(s[0])];
    }
  }

  /** `exit` is recognised in any mix of upper and lower case, and nothing
      else is. */
  lemma {:induction false} FromStringExit(s: string)
    ensures FromString(s) == Some(Exit) <==>
      |s| == 4 && forall k :: 0 <= k < 4 ==> s[k] == "exit"[k] || s[k] == "EXIT"[k]
  {
    var t := ToLower(s);
    if |s| == 4 {
      forall k | 0 <= k < 4 ensures LowerChar(s[k]) == "exit"[k] <==> s[k] == "exit"[k] || s[k] == "EXIT"[k] {
      }
      assert t == "exit" <==> forall k :: 0 <= k < 4 ==> t[k] == "exit"[k];
    }
  }

  /** The printing `parse_result` of src/main.rs: the same checks in the
      same order as `Standings.ParseResult`, with the message it prints
      returned as the error that caused it. A rejected line leaves the
      table as it was; an accepted one is applied by `add_game`. */
  method ParseResultPrinting(line: string, table: Table) returns (message: Option<ResultError>)
    requires table.Valid() && ResultFits(line, table.Rows())
    modifies table.teams
    ensures match CheckResult(line, old(table.Rows()))
      case Err(e) => message == Some(e) && table.Rows() == old(table.Rows())
      case Ok(g) => message.None? && table.Rows() == ApplyGame(old(table.Rows()), g.home, g.away, g.homeGoals, g.awayGoals)
  {
    var r := ParseResult(line, table);
    message := match r case Err(e) => Some(e) case Ok(_) => None;
  }
}
