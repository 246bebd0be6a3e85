/** The JDBC escape text for a stored-procedure call: `{call NAME(?,?,...)}` with one
    placeholder per parameter, whatever the parameters' modes. */
module CallText {

  /** The parts joined with `sep` between neighbours. */
  function Join(sep: string, parts: seq<string>): string
  {
    if parts == [] then ""
    else if |parts| == 1 then parts[0]
    else parts[0] + sep + Join(sep, parts[1..])
  }

  /** `n` copies of `s`. */
  function Repeat(s: string, n: nat): seq<string>
  {
    seq(n, _ => s)
  }

  /** The call text for `n` parameters. */
  function CallText(name: string, n: nat): string
  {
    "{call " + name + "(" + Join(",", Repeat("?", n)) + ")}"
  }

  function Count(c: char, s: string): nat
  {
    if s == [] then 0 else (if s[0] == c then 1 else 0) + Count(c, s[1..])
  }

  /** A text without `?` counts none. */
  lemma {:induction false} NoQuestionMark(s: string)
    requires forall i :: 0 <= i < |s| ==> s[i] != '?'
    ensures Count('?', s) == 0
    decreases |s|
  {
    if s != [] {
      NoQuestionMark(s[1..]);
    }
  }

  lemma {:induction false} JoinSnoc(sep: string, parts: seq<string>, p: string)
    ensures Join(sep, parts + [p]) == Join(sep, parts) + (if parts == [] then "" else sep) + p
    decreases |parts|
  {
    if parts == [] {
      assert parts + [p] == [p];
    } else if |parts| == 1 {
      assert parts + [p] == [parts[0], p];
      assert [parts[0], p][1..] == [p];
    } else {
      assert (parts + [p])[1..] == parts[1..] + [p];
      JoinSnoc(sep, parts[1..], p);
    }
  }

  lemma {:induction false} CountAppend(c: char, a: string, b: string)
    ensures Count(c, a + b) == Count(c, a) + Count(c, b)
    decreases |a|
  {
    if a == [] {
      assert a + b == b;
    } else {
      assert (a + b)[1..] == a[1..] + b;
      CountAppend(c, a[1..], b);
    }
  }

  /** The placeholder list holds exactly `n` question marks and `n - 1` commas. */
  lemma {:induction false} PlaceholderCounts(n: nat)
    ensures Count('?', Join(",", Repeat("?", n))) == n
    ensures n > 0 ==> Count(',', Join(",", Repeat("?", n))) == n - 1
  {
    if n > 0 {
      PlaceholderCounts(n - 1);
      assert Repeat("?", n) == Repeat("?", n - 1) + ["?"];
      JoinSnoc(",", Repeat("?", n - 1), "?");
      var j := Join(",", Repeat("?", n - 1));
      var sep := if n - 1 == 0 then "" else ",";
      CountAppend('?', j + sep, "?");
      CountAppend('?', j, sep);
      CountAppend(',', j + sep, "?");
      CountAppend(',', j, sep);
    }
  }

  /** With a name free of `?` (every accepted procedure name is), the call text carries
      exactly one placeholder per parameter. */
  lemma CallTextPlaceholders(name: string, n: nat)
    requires Count('?', name) == 0
    ensures Count('?', CallText(name, n)) == n
  {
    var j := Join(",", Repeat("?", n));
    PlaceholderCounts(n);
    CountAppend('?', "{call " + name + "(" + j, ")}");
    CountAppend('?', "{call " + name + "(", j);
    CountAppend('?', "{call " + name, "(");
    CountAppend('?', "{call ", name);
  }

  /** The StringBuilder loop of executeStoredProcedure: `?` first, then `,?` each time. */
  method BuildCallText(name: string, n: nat) returns (text: string)
    ensures text == CallText(name, n)
  {
    var sprocStr := "{call " + name + "(";
    var placeholder := "?";
    var i := 0;
    while i < n
      invariant 0 <= i <= n
      invariant placeholder == if i == 0 then "?" else ",?"
      invariant sprocStr == "{call " + name + "(" + Join(",", Repeat("?", i))
    {
      JoinSnoc(",", Repeat("?", i), "?");
      assert Repeat("?", i + 1) == Repeat("?", i) + ["?"];
      sprocStr := sprocStr + placeholder;
      placeholder := ",?";
      i := i + 1;
    }
    text := sprocStr + ")}";
  }
}
