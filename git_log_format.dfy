/**
 * The layout the log producer asks git for: a sentinel line that opens
 * every commit, then one line per pretty-format token in `FORMAT` order.
 * Only these constants are modelled; building the git command line is not.
 */
module GitLogFormat {

  const START_COMMIT: string := "@@@@@@@@@@"

  const SHA: string := "%h"
  const AUTHOR: string := "%aN"
  const EMAIL: string := "%aE"
  const DATE: string := "%at"
  const DATE_ISO: string := "%ai"
  const COMMIT_DATE: string := "%ct"
  const COMMIT_DATE_ISO: string := "%ci"
  const PARENT: string := "%p"
  const TREE: string := "%t"
  const SUBJECT: string := "%s"

  const FORMAT: seq<string> :=
    [SHA, AUTHOR, EMAIL, DATE, DATE_ISO, COMMIT_DATE, COMMIT_DATE_ISO, PARENT, TREE, SUBJECT]

  /** Python's `list.index`: the first position of `x` in `s`. */
  function IndexIn(s: seq<string>, x: string): (i: nat)
    requires x in s
    ensures i < |s| && s[i] == x
    ensures forall j :: 0 <= j < i ==> s[j] != x
  {
    if s[0] == x then 0 else 1 + IndexIn(s[1..], x)
  }

  /** `FORMAT.index(token)`: the header line that carries `token`'s value. */
  function FieldIndex(token: string): (i: nat)
    requires token in FORMAT
    ensures i < |FORMAT| && FORMAT[i] == token
  {
    IndexIn(FORMAT, token)
  }

  /** The header tokens are distinct, so each occupies the line of its position. */
  lemma FieldIndices()
    ensures FieldIndex(SHA) == 0 && FieldIndex(AUTHOR) == 1 && FieldIndex(EMAIL) == 2
    ensures FieldIndex(DATE) == 3 && FieldIndex(DATE_ISO) == 4 && FieldIndex(COMMIT_DATE) == 5
    ensures FieldIndex(COMMIT_DATE_ISO) == 6 && FieldIndex(PARENT) == 7
    ensures FieldIndex(TREE) == 8 && FieldIndex(SUBJECT) == 9
    ensures START_COMMIT !in FORMAT
  {
  }
}
