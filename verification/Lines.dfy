/** Lines of a buffer. A newline belongs to the line it ends; behind the last newline there is one more
    line, which is empty when the buffer ends with a newline. */
module Lines {
  import opened Text

  const NEWLINE: Byte := 10

  /** Where the line that holds position i begins. */
  function LineStart(buf: Bytes, i: nat): (r: nat)
    requires i <= |buf|
    ensures r <= i && (r == 0 || buf[r - 1] == NEWLINE)
    ensures forall j | r <= j < i :: buf[j] != NEWLINE
  {
    if i == 0 then 0 else if buf[i - 1] == NEWLINE then i else LineStart(buf, i - 1)
  }

  /** The number of the line that holds position i, counted from 0. */
  function LineOf(buf: Bytes, i: nat): nat
    requires i <= |buf|
  {
    if i == 0 then 0 else LineOf(buf, i - 1) + if buf[i - 1] == NEWLINE then 1 else 0
  }

  /** Later positions are on the same line or on a later one. */
  lemma StartsGrow(buf: Bytes, i: nat, j: nat)
    requires i <= j <= |buf|
    ensures LineStart(buf, i) <= LineStart(buf, j)
    ensures LineStart(buf, i) < LineStart(buf, j) ==> i < LineStart(buf, j)
  {
  }

  lemma {:induction false} LinesGrow(buf: Bytes, i: nat, j: nat)
    requires i <= j <= |buf|
    ensures LineOf(buf, i) <= LineOf(buf, j)
    ensures LineStart(buf, i) == LineStart(buf, j) <==> LineOf(buf, i) == LineOf(buf, j)
    decreases j
  {
    if i < j {
      LinesGrow(buf, i, j - 1);
    }
  }

  /** The texts of the lines that end before i. */
  function LinesBefore(buf: Bytes, i: nat): (r: seq<Bytes>)
    requires i <= |buf|
    ensures |r| == LineOf(buf, i)
  {
    if i == 0 then [] else
      LinesBefore(buf, i - 1) + if buf[i - 1] == NEWLINE then [buf[LineStart(buf, i - 1)..i - 1]] else []
  }

  /** All lines: the pieces between newlines, as if one more newline followed the buffer. */
  function AllLines(buf: Bytes): (r: seq<Bytes>)
    ensures |r| == LineOf(buf + [NEWLINE], |buf| + 1)
  {
    LinesBefore(buf + [NEWLINE], |buf| + 1)
  }

  /** The line that ends at i is found under its number. */
  lemma {:induction false} LineText(buf: Bytes, i: nat, j: nat)
    requires i < j <= |buf| && buf[i] == NEWLINE
    ensures LineOf(buf, i) < LineOf(buf, j)
    ensures LinesBefore(buf, j)[LineOf(buf, i)] == buf[LineStart(buf, i)..i]
    decreases j
  {
    if i + 1 < j {
      LineText(buf, i, j - 1);
    }
  }
}
