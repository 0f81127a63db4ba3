/** File names the agent accepts (cmd/agent/database_archiver.go). */
module Names {
  predicate IsLetterOrDigit(c: char) {
    'a' <= c <= 'z' || 'A' <= c <= 'Z' || '0' <= c <= '9'
  }

  predicate IsSafeChar(c: char) {
    IsLetterOrDigit(c) || c == '.' || c == '_' || c == '-'
  }

  predicate AllSafe(s: string) {
    forall i | 0 <= i < |s| :: IsSafeChar(s[i])
  }

  /** A name without path separators or any other unusual character. */
  predicate IsSafeName(s: string) {
    s != "" && AllSafe(s)
  }

  /** The names that MySQL gives to its logs are accepted, and no accepted name leaves its directory by a separator. */
  lemma LogNamesAreSafe(number: string, s: string)
    requires forall i | 0 <= i < |number| :: '0' <= number[i] <= '9'
    ensures IsSafeName("mysql-bin." + number) && IsSafeName("binlog_2." + number)
    ensures IsSafeName(s) ==> s != "" && forall i | 0 <= i < |s| :: s[i] !in "/\\ \t\r\n:*?\"<>|"
  {
  }
}
