/** The identifier and range checks that every entry point runs before it
    builds a command (server.py:14-15, 148-149, 195-198, 293-298, 321). */
module Validation {
  import opened Text

  /** Longest unit name an entry point accepts. */
  const MaxUnitLength := 200
  /** Length of a journal invocation id: 128 bits in lowercase hex. */
  const InvocationIdLength := 32
  /** Largest number of runs `list_runs` reports. */
  const MaxRuns := 50
  /** Largest number of log lines `logs_for_invocation` returns. */
  const MaxLogLines := 5000
  /** Number of most recent journal records scanned for invocation ids. */
  const ScanWindow := 20000

  /** The character class of UNIT_RE: `[A-Za-z0-9:._@-]`. */
  predicate IsUnitChar(c: char)
  {
    || ('A' <= c <= 'Z') || ('a' <= c <= 'z') || ('0' <= c <= '9')
    || c == ':' || c == '.' || c == '_' || c == '@' || c == '-'
  }

  /** `UNIT_RE.fullmatch(s)`: one or more characters of the class. */
  predicate MatchesUnitPattern(s: string)
  {
    s != [] && forall i :: 0 <= i < |s| ==> IsUnitChar(s[i])
  }

  /** The unit check of the entry points: non-empty, at most 200 characters,
      and matching UNIT_RE. */
  predicate ValidUnitName(s: string)
  {
    s != [] && |s| <= MaxUnitLength && MatchesUnitPattern(s)
  }

  predicate IsLowerHex(c: char)
  {
    ('0' <= c <= '9') || ('a' <= c <= 'f')
  }

  /** `INVOCATION_RE.fullmatch(s)`: exactly 32 lowercase hex digits. */
  predicate IsInvocationId(s: string)
  {
    |s| == InvocationIdLength && forall i :: 0 <= i < |s| ==> IsLowerHex(s[i])
  }

  predicate ValidRunsLimit(limit: int)
  {
    1 <= limit <= MaxRuns
  }

  predicate ValidLogsLimit(limit: int)
  {
    1 <= limit <= MaxLogLines
  }

  /** A name that matches UNIT_RE is a single whitespace-free field. */
  lemma PatternIsToken(s: string)
    requires MatchesUnitPattern(s)
    ensures IsToken(s)
  {
  }
}
