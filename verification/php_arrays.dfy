/**
 * PHP array values as the search code sees them: the request array, a fetched
 * database row, and the `empty()` / `isset()` tests the code applies to them.
 */
module PhpArrays {
  import opened Wrappers

  /**
   * A request array. A key that is not in the map is absent; a key mapped to
   * `None` is present and holds `null`.
   */
  type Request = map<string, Option<string>>

  /** A fetched row: its `forumid` column and the remaining columns. */
  datatype Row = Row(forumid: int, columns: map<string, string>)

  /** PHP `empty()` of a string-or-null value: `null`, `""` and `"0"` are empty. */
  predicate EmptyValue(v: Option<string>) {
    v.None? || v.value == "" || v.value == "0"
  }

  /** PHP `empty($req[$key])`: an absent key is empty too. */
  predicate EmptyAt(req: Request, key: string) {
    key !in req || EmptyValue(req[key])
  }

  /** PHP `isset($req[$key])`: present and not `null`. */
  predicate IsSetAt(req: Request, key: string) {
    key in req && req[key].Some?
  }

  /** Reading `$req[$key]`: an absent key reads as `null`. */
  function ValueAt(req: Request, key: string): Option<string> {
    if key in req then req[key] else None
  }

  /** `$req[$key]` used in a string concatenation: `null` becomes `""`. */
  function TextAt(req: Request, key: string): string {
    ValueAt(req, key).GetOr("")
  }
}
