/** What the read and write sides of a stdio stream share: buffer sizes, EOF and byte counts. */
module StdioBuffer {

  const BUFSIZ: nat := 1024
  const OVRSIZ: nat := 32
  const OVRBUF: nat := BUFSIZ + OVRSIZ
  const EOF: int := -1

  function Min(a: nat, b: nat): nat { if a <= b then a else b }

  /** The byte count of an fread or fwrite request. */
  function Total(size: nat, nmemb: nat): nat {
    if size == 0 || nmemb == 0 then 0 else size * nmemb
  }

  lemma PrefixInTwo<T>(s: seq<T>, m: nat, n: nat)
    requires m + n <= |s|
    ensures s[..m] + s[m..][..n] == s[..m + n]
  {
  }

  lemma Regroup<T>(all: seq<T>, a: seq<T>, b: seq<T>, c: seq<T>)
    requires all == a + (b + c)
    ensures all == a + b + c
  {
  }
}
