/** A line of costs as Callgrind prints it: decimal numbers separated by blanks, trailing
    zeros left out except for the first number. */
module CostLine {
  import opened Arith

  // ------------------------------------------------------------------ decimal numbers

  function DigitChar(d: nat): (c: char)
    requires d < 10
    ensures c != ' '
  {
    "0123456789"[d]
  }

  function CharDigit(c: char): (d: nat)
  {
    if '0' <= c <= '9' then (c as int) - ('0' as int) else 0
  }

  lemma {:induction false} DigitOfChar(d: nat)
    requires d < 10
    ensures CharDigit(DigitChar(d)) == d
  {
  }

  function Decimal(n: nat): (s: string)
    ensures |s| > 0 && ' ' !in s
  {
    if n < 10 then [DigitChar(n)] else Decimal(n / 10) + [DigitChar(n % 10)]
  }

  function Number(s: string): (n: nat)
  {
    if s == "" then 0 else 10 * Number(s[..|s|-1]) + CharDigit(s[|s|-1])
  }

  lemma {:induction false} NumberOfDecimal(n: nat)
    ensures Number(Decimal(n)) == n
  {
    if n < 10 {
      DigitOfChar(n);
      assert Number(Decimal(n)[..0]) == 0;
    } else {
      NumberOfDecimal(n / 10);
      DigitOfChar(n % 10);
      var s := Decimal(n);
      assert s[..|s|-1] == Decimal(n / 10);
    }
  }

  // ------------------------------------------------------------------ lines

  function Join(v: seq<nat>): (s: string)
  {
    if |v| == 0 then ""
    else if |v| == 1 then Decimal(v[0])
    else Join(v[..|v|-1]) + " " + Decimal(v[|v|-1])
  }

  /** Where the last word of a line starts. */
  function LastWord(s: string): (i: nat)
    ensures i <= |s| && ' ' !in s[i..] && (i > 0 ==> s[i-1] == ' ')
  {
    if s == "" then 0
    else if s[|s|-1] == ' ' then |s|
    else LastWord(s[..|s|-1])
  }

  /** The numbers of a line. */
  function Numbers(s: string): (v: seq<nat>)
    decreases |s|
  {
    if s == "" then []
    else
      var i := LastWord(s);
      if i == 0 then [Number(s)] else Numbers(s[..i-1]) + [Number(s[i..])]
  }

  lemma {:induction false} LastWordIs(s: string, i: nat)
    requires i <= |s| && ' ' !in s[i..] && (i > 0 ==> s[i-1] == ' ')
    ensures LastWord(s) == i
  {
    var j := LastWord(s);
    assert forall k :: i <= k < |s| ==> s[k] == s[i..][k-i];
    assert forall k :: j <= k < |s| ==> s[k] == s[j..][k-j];
  }

  lemma {:induction false} NumbersNext(rest: string, word: string)
    requires ' ' !in word
    ensures Numbers(rest + " " + word) == Numbers(rest) + [Number(word)]
  {
    var s, i := rest + " " + word, |rest| + 1;
    assert s[i..] == word && s[..i-1] == rest && s[i-1] == ' ';
    LastWordIs(s, i);
  }

  lemma {:induction false} NumbersOfOne(word: string)
    requires ' ' !in word && |word| > 0
    ensures Numbers(word) == [Number(word)]
  {
    assert word[0..] == word;
    LastWordIs(word, 0);
  }

  lemma {:induction false} PrintNext(rest: seq<nat>, last: nat, line: string)
    requires Numbers(line) == rest
    ensures Numbers(line + " " + Decimal(last)) == rest + [last]
  {
    NumberOfDecimal(last);
    NumbersNext(line, Decimal(last));
  }

  lemma {:induction false} PrintOne(x: nat)
    ensures Numbers(Decimal(x)) == [x]
  {
    NumberOfDecimal(x);
    NumbersOfOne(Decimal(x));
  }

  /** Reading a printed line gives the numbers printed. */
  lemma {:induction false} NumbersOfJoin(v: seq<nat>, line: string)
    requires line == Join(v)
    ensures Numbers(line) == v
    decreases |v|
  {
    if |v| == 1 {
      PrintOne(v[0]);
      assert v == [v[0]];
    } else if |v| > 1 {
      var rest, last := v[..|v|-1], v[|v|-1];
      var front := Join(rest);
      NumbersOfJoin(rest, front);
      PrintNext(rest, last, front);
      assert v == rest + [last];
    }
  }

  /** What is printed of a list of costs. */
  function Trim(v: seq<nat>): (t: seq<nat>)
    ensures |t| <= |v|
  {
    if |v| > 1 && v[|v|-1] == 0 then Trim(v[..|v|-1]) else v
  }

  /** The costs of `k` events as a reader takes them from a line: missing ones are zero. */
  function Read(line: string, k: nat): (v: seq<nat>)
  {
    var v := Numbers(line);
    if |v| <= k then v + Zeros(k - |v|) else v
  }

  lemma {:induction false} TrimPads(v: seq<nat>)
    ensures Trim(v) + Zeros(|v| - |Trim(v)|) == v
    ensures |v| > 0 ==> |Trim(v)| > 0
    ensures |Trim(v)| > 1 ==> Trim(v)[|Trim(v)|-1] != 0
  {
    if |v| > 1 && v[|v|-1] == 0 {
      TrimPads(v[..|v|-1]);
      assert v == v[..|v|-1] + [0];
    }
  }

  /** No cost is lost by leaving out the trailing zeros. */
  lemma {:induction false} ReadOfTrimmed(v: seq<nat>)
    ensures Read(Join(Trim(v)), |v|) == v
  {
    NumbersOfJoin(Trim(v), Join(Trim(v)));
    TrimPads(v);
  }

  lemma {:induction false} JoinNext(v: seq<nat>, x: nat)
    requires |v| > 0
    ensures Join(v + [x]) == Join(v) + " " + Decimal(x)
  {
    assert (v + [x])[..|v|] == v;
  }

  lemma {:induction false} TrimNext(v: seq<nat>, x: nat)
    requires |v| > 0
    ensures Trim(v + [x]) == if x == 0 then Trim(v) else v + [x]
  {
    assert (v + [x])[..|v|] == v;
  }

  /** Costs of the mapped events; a missing cost array means all zero. */
  function Mapped(offsets: seq<nat>, c: seq<nat>): (v: seq<nat>)
    requires forall k :: 0 <= k < |offsets| ==> offsets[k] < |c|
    ensures |v| == |offsets| && forall k :: 0 <= k < |v| ==> v[k] == c[offsets[k]]
  {
    seq(|offsets|, k requires 0 <= k < |offsets| => c[offsets[k]])
  }

  /** Print the zeros that were skipped. */
  method PrintSkipped(s: string, ghost t: seq<nat>, n: nat) returns (r: string)
    requires |t| > 0 && s == Join(t)
    ensures r == Join(t + Zeros(n))
  {
    r := s;
    var skipped := n;
    ghost var printed := t;
    while skipped > 0
      invariant 0 <= skipped <= n && |printed| > 0 && r == Join(printed)
      invariant printed + Zeros(skipped) == t + Zeros(n)
    {
      JoinNext(printed, 0);
      assert [0] + Zeros(skipped - 1) == Zeros(skipped);
      assert printed + Zeros(skipped) == (printed + [0]) + Zeros(skipped - 1);
      assert Decimal(0) == "0";
      r := r + " 0";
      printed := printed + [0];
      skipped := skipped - 1;
    }
    assert printed + Zeros(0) == printed;
  }

  /** Print one more number, or skip it if it is zero. */
  method PrintNumber(s: string, ghost done: seq<nat>, x: nat, skipped: nat) returns (r: string, n: nat)
    requires |done| > 0 && s == Join(Trim(done)) && skipped == |done| - |Trim(done)|
    ensures r == Join(Trim(done + [x])) && n == |done| + 1 - |Trim(done + [x])|
  {
    TrimNext(done, x);
    TrimPads(done);
    if x == 0 {
      return s, skipped + 1;
    }
    r := PrintSkipped(s, Trim(done), skipped);
    JoinNext(done, x);
    r, n := r + " " + Decimal(x), 0;
  }

  /** The cost line of an event mapping. */
  method MappingCostAsString(offsets: seq<nat>, c: array?<nat>) returns (r: string)
    requires c != null ==> forall k :: 0 <= k < |offsets| ==> offsets[k] < c.Length
    ensures Read(r, |offsets|) == if c == null then Zeros(|offsets|) else Mapped(offsets, c[..])
    ensures c != null ==> r == Join(Trim(Mapped(offsets, c[..])))
  {
    if c == null || |offsets| == 0 {
      return "";
    }
    ghost var v := Mapped(offsets, c[..]);
    r := Decimal(c[offsets[0]]);
    var i, skipped := 1, 0;
    assert v[..1] == [v[0]];
    while i < |offsets|
      invariant 1 <= i <= |offsets| && r == Join(Trim(v[..i])) && skipped == i - |Trim(v[..i])|
    {
      assert v[..i+1] == v[..i] + [v[i]];
      r, skipped := PrintNumber(r, v[..i], c[offsets[i]], skipped);
      i := i + 1;
    }
    assert v[..i] == v;
    ReadOfTrimmed(v);
  }
}
