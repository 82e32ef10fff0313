/** Shared vocabulary: a value that may be absent, and the case folding of SQLite's LIKE. */
module Common {
  datatype Option<+T> = None | Some(value: T)

  function Lower(s: string): string {
    seq(|s|, i requires 0 <= i < |s| => if 'A' <= s[i] <= 'Z' then (s[i] as int + 32) as char else s[i])
  }
}
