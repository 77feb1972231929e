// Conversation sampling (postprod-eval/src/llmevalgrader/transformation/sampling.py
// and its copy src/llminspect/transformation/sampling.py): the distinct
// conversation ids in first-seen order are cut to the first int(F * count),
// and exactly the rows of those conversations are kept, in input order. The
// float fraction F is the rational num/den.
module Sampling {
  import opened Tables

  const ConversationId: string := "conversation_id"

  /** The default fraction 0.8. */
  const DefaultNum: int := 4
  const DefaultDen: nat := 5

  /** Python's `int(a / d)` for a positive divisor: truncation toward zero. */
  function TruncDiv(a: int, d: nat): (r: int)
    requires d > 0
    ensures a >= 0 ==> r >= 0 && r * d <= a < (r + 1) * d
    ensures a < 0 ==> r <= 0 && -r * d <= -a < (-r + 1) * d
  {
    if a >= 0 then DivBounds(a, d); a / d
    else
      var q := (-a) / d;
      DivBounds(-a, d);
      assert -(-q) == q;
      -q
  }

  /** The quotient of a natural number brackets it between two multiples. */
  lemma DivBounds(a: nat, d: nat)
    requires d > 0
    ensures 0 <= a / d && (a / d) * d <= a < (a / d) * d + d
  {
    var q, m := a / d, a % d;
    assert a == q * d + m && 0 <= m < d;
  }

  /** How many elements `xs[:c]` keeps of a sequence of length n, with
      Python's reading of a negative bound as counting from the end. */
  function SliceLength(n: nat, c: int): (k: nat)
    ensures k <= n
    ensures 0 <= c <= n ==> k == c
    ensures c > n ==> k == n
    ensures c < 0 ==> k == if n + c > 0 then n + c else 0
  {
    if c >= 0 then (if c <= n then c else n)
    else if n + c > 0 then n + c else 0
  }

  /** The distinct conversation ids in first-seen order (`unique()`). */
  function Conversations(df: Table): seq<Value>
  {
    Distinct(seq(|df|, i requires 0 <= i < |df| => Cell(df[i], ConversationId)))
  }

  /** The sampled conversation ids: the first int(F * count) of them. */
  function SampledConversations(df: Table, num: int, den: nat): (kept: seq<Value>)
    requires den > 0
    ensures kept <= Conversations(df)
    ensures |kept| == SliceLength(|Conversations(df)|, TruncDiv(num * |Conversations(df)|, den))
  {
    var all := Conversations(df);
    all[..SliceLength(|all|, TruncDiv(num * |all|, den))]
  }

  /** simple_sample: the rows whose conversation is sampled, in input order.
      It reads conversation_id of every row. */
  function SimpleSample(df: Table, num: int, den: nat): (r: Table)
    requires ColumnPresent(df, ConversationId)
    requires den > 0
    ensures forall x :: x in r <==> x in df && Cell(x, ConversationId) in SampledConversations(df, num, den)
  {
    Filter(df, (x: Row) => Cell(x, ConversationId) in SampledConversations(df, num, den))
  }

  /** simple_sample with its default fraction 0.8. */
  function SimpleSampleDefault(df: Table): Table
    requires ColumnPresent(df, ConversationId)
  {
    SimpleSample(df, DefaultNum, DefaultDen)
  }

  /** Sampling only deletes rows: the result is a subsequence of the input. */
  lemma SampleIsSubsequence(df: Table, num: int, den: nat)
    requires ColumnPresent(df, ConversationId) && den > 0
    ensures IsSubsequence(SimpleSample(df, num, den), df)
  {
    FilterIsSubsequence(df, (x: Row) => Cell(x, ConversationId) in SampledConversations(df, num, den));
  }

  /** Conversations are kept whole: two input rows of the same conversation
      are both kept or both dropped. */
  lemma SampleIsConversationAtomic(df: Table, num: int, den: nat, i: int, j: int)
    requires ColumnPresent(df, ConversationId) && den > 0
    requires 0 <= i < |df| && 0 <= j < |df|
    requires Cell(df[i], ConversationId) == Cell(df[j], ConversationId)
    ensures df[i] in SimpleSample(df, num, den) <==> df[j] in SimpleSample(df, num, den)
  {
  }

  lemma MulMonotone(a: int, b: int, n: nat)
    requires a <= b
    ensures a * n <= b * n
  {
  }

  /** With num >= den, int(num * n / den) is at least n. */
  lemma TruncDivCovers(num: int, n: nat, den: nat)
    requires den > 0 && num >= den
    ensures TruncDiv(num * n, den) >= n
  {
    MulMonotone(den, num, n);
    var r := TruncDiv(num * n, den);
    if r < n {
      MulMonotone(r + 1, n, den);
    }
  }

  /** int(num * n / den) grows with num. */
  lemma TruncDivMonotone(num1: int, num2: int, n: nat, den: nat)
    requires den > 0 && 0 <= num1 <= num2
    ensures TruncDiv(num1 * n, den) <= TruncDiv(num2 * n, den)
  {
    MulMonotone(num1, num2, n);
    var c1, c2 := TruncDiv(num1 * n, den), TruncDiv(num2 * n, den);
    if c1 > c2 {
      MulMonotone(c2 + 1, c1, den);
    }
  }

  /** A fraction of at least 1 keeps every row. */
  lemma SampleAll(df: Table, num: int, den: nat)
    requires ColumnPresent(df, ConversationId) && den > 0
    requires num >= den
    ensures SimpleSample(df, num, den) == df
  {
    var all := Conversations(df);
    TruncDivCovers(num, |all|, den);
    assert SampledConversations(df, num, den) == all;
    var ids := seq(|df|, i requires 0 <= i < |df| => Cell(df[i], ConversationId));
    forall k | 0 <= k < |df| ensures Cell(df[k], ConversationId) in all {
      assert ids[k] in ids;
    }
    FilterAll(df, (x: Row) => Cell(x, ConversationId) in SampledConversations(df, num, den));
  }

  /** A fraction of 0 keeps nothing. */
  lemma SampleNone(df: Table, den: nat)
    requires ColumnPresent(df, ConversationId) && den > 0
    ensures SimpleSample(df, 0, den) == []
  {
    assert SampledConversations(df, 0, den) == [];
    FilterNone(df, (x: Row) => Cell(x, ConversationId) in SampledConversations(df, 0, den));
  }

  /** The default keeps the first floor(4n/5) of n distinct conversations. */
  lemma SampleDefaultCount(df: Table)
    ensures |SampledConversations(df, DefaultNum, DefaultDen)| == (4 * |Conversations(df)|) / 5
  {
  }

  /** A larger fraction keeps more: the conversations sampled with num1/den
      are a prefix of those sampled with num2/den when 0 <= num1 <= num2, so
      every row kept by the first is kept by the second. */
  lemma SampleMonotone(df: Table, num1: int, num2: int, den: nat)
    requires ColumnPresent(df, ConversationId)
    requires den > 0 && 0 <= num1 <= num2
    ensures SampledConversations(df, num1, den) <= SampledConversations(df, num2, den)
    ensures forall x :: x in SimpleSample(df, num1, den) ==> x in SimpleSample(df, num2, den)
  {
    TruncDivMonotone(num1, num2, |Conversations(df)|, den);
  }
}
