/**
  String building blocks of the controller's SQL text: the `", "`-joined lists
  that every handler assembles, the decimal numerals of the `$n` placeholders,
  and the inverse functions (splitting a list, parsing a numeral) that the
  round-trip lemmas are stated with.
*/
module Text {
  import opened Options

  /** The list separator the controller writes between list items. */
  const Separator: string := ", "

  /** `parts` joined with `", "`: no separator before the first item or after the last. */
  function Join(parts: seq<string>): string
    decreases |parts|
  {
    if |parts| == 0 then ""
    else if |parts| == 1 then parts[0]
    else parts[0] + Separator + Join(parts[1..])
  }

  /** Index of the first `c` in `s`, or `|s|` when `s` has none. */
  function IndexOf(s: string, c: char): (k: nat)
    ensures k <= |s|
    ensures forall i :: 0 <= i < k ==> s[i] != c
    ensures k < |s| ==> s[k] == c
    decreases |s|
  {
    if |s| == 0 then 0
    else if s[0] == c then 0
    else 1 + IndexOf(s[1..], c)
  }

  /** Index of the last `c` in `s`, or `-1` when `s` has none. */
  function LastIndexOf(s: string, c: char): (k: int)
    ensures -1 <= k < |s|
    ensures k >= 0 ==> s[k] == c
    ensures forall i :: k < i < |s| ==> s[i] != c
    decreases |s|
  {
    if |s| == 0 then -1
    else if s[|s| - 1] == c then |s| - 1
    else LastIndexOf(s[..|s| - 1], c)
  }

  /** `c` does not occur in `s`. */
  predicate Lacks(s: string, c: char)
  {
    forall i :: 0 <= i < |s| ==> s[i] != c
  }

  /** Number of occurrences of `c` in `s`. */
  function Count(s: string, c: char): nat
    decreases |s|
  {
    if |s| == 0 then 0
    else (if s[0] == c then 1 else 0) + Count(s[1..], c)
  }

  /**
    Splits a `", "`-separated list back into its items: the text is cut at
    every comma, and one space that directly follows a comma is dropped.
  */
  function SplitList(s: string): (items: seq<string>)
    ensures |items| >= 1
    decreases |s|
  {
    var k := IndexOf(s, ',');
    if k == |s| then [s]
    else if k + 1 < |s| && s[k + 1] == ' ' then [s[..k]] + SplitList(s[k + 2..])
    else [s[..k]] + SplitList(s[k + 1..])
  }

  /**
    The loop shape used at every list in the controller: append item `i`,
    then append `", "` unless `i` is the last index.
  */
  method JoinLoop(items: seq<string>) returns (s: string)
    ensures s == Join(items)
  {
    s := "";
    var i := 0;
    while i < |items|
      invariant 0 <= i <= |items|
      invariant i == 0 ==> s == ""
      invariant 0 < i < |items| ==> s == Join(items[..i]) + Separator
      invariant i == |items| > 0 ==> s == Join(items)
    {
      if i > 0 {
        JoinSnoc(items[..i], items[i]);
        assert items[..i] + [items[i]] == items[..i + 1];
      }
      s := s + items[i];
      if i < |items| - 1 {
        s := s + Separator;
      }
      i := i + 1;
      if i == |items| {
        assert items[..i] == items;
      }
    }
  }

  /** Appending one item to a non-empty list appends one separator and the item. */
  lemma {:induction false} JoinSnoc(parts: seq<string>, last: string)
    requires |parts| > 0
    ensures Join(parts + [last]) == Join(parts) + Separator + last
    decreases |parts|
  {
    if |parts| == 1 {
      assert parts + [last] == [parts[0], last];
    } else {
      assert (parts + [last])[1..] == parts[1..] + [last];
      JoinSnoc(parts[1..], last);
    }
  }

  /** No item of `parts` contains `c`. */
  predicate Free(parts: seq<string>, c: char)
  {
    forall i :: 0 <= i < |parts| ==> Lacks(parts[i], c)
  }

  /**
    When no item contains a comma, a joined list of `n >= 1` items contains
    exactly `n - 1` commas and ends with its last item: no trailing separator.
  */
  lemma {:induction false} JoinSeparatorCount(parts: seq<string>)
    requires |parts| > 0
    requires Free(parts, ',')
    ensures Count(Join(parts), ',') == |parts| - 1
    ensures |Join(parts)| >= |parts[|parts| - 1]|
    ensures Join(parts)[|Join(parts)| - |parts[|parts| - 1]|..] == parts[|parts| - 1]
    decreases |parts|
  {
    if |parts| == 1 {
      CountFree(parts[0], ',');
    } else {
      var rest := parts[1..];
      JoinSeparatorCount(rest);
      CountFree(parts[0], ',');
      CountAppend(parts[0], Separator + Join(rest), ',');
      CountAppend(Separator, Join(rest), ',');
      assert Separator + Join(rest) == [',', ' '] + Join(rest);
      assert Count(Separator, ',') == 1 by {
        assert Separator[1..] == " ";
        assert Count(" ", ',') == 0 by { assert " "[1..] == ""; }
      }
      assert Join(parts) == parts[0] + (Separator + Join(rest));
      assert parts[|parts| - 1] == rest[|rest| - 1];
    }
  }

  /** A character that is in no item and not in the separator is not in the joined list. */
  lemma {:induction false} JoinLacks(parts: seq<string>, c: char)
    requires Free(parts, c)
    requires c != ',' && c != ' '
    ensures Lacks(Join(parts), c)
    decreases |parts|
  {
    if |parts| > 1 {
      var rest := parts[1..];
      assert Free(rest, c) by {
        forall i | 0 <= i < |rest| ensures Lacks(rest[i], c) {
          assert rest[i] == parts[i + 1];
        }
      }
      JoinLacks(rest, c);
      var s := Join(parts);
      assert s == parts[0] + Separator + Join(rest);
      forall j | 0 <= j < |s| ensures s[j] != c {
        if j < |parts[0]| {
          assert s[j] == parts[0][j];
        } else if j >= |parts[0]| + 2 {
          assert s[j] == Join(rest)[j - |parts[0]| - 2];
        }
      }
    }
  }

  lemma {:induction false} CountFree(s: string, c: char)
    requires Lacks(s, c)
    ensures Count(s, c) == 0
    decreases |s|
  {
    if |s| > 0 {
      CountFree(s[1..], c);
    }
  }

  lemma {:induction false} CountAppend(a: string, b: string, c: char)
    ensures Count(a + b, c) == Count(a, c) + Count(b, c)
    decreases |a|
  {
    if |a| > 0 {
      assert (a + b)[1..] == a[1..] + b;
      CountAppend(a[1..], b, c);
    } else {
      assert a + b == b;
    }
  }

  /** The first `c` of `p + q` is at `|p|` when `p` has none and `q` starts with one. */
  lemma {:induction false} IndexOfAfter(p: string, q: string, c: char)
    requires Lacks(p, c)
    requires |q| > 0 && q[0] == c
    ensures IndexOf(p + q, c) == |p|
    decreases |p|
  {
    if |p| > 0 {
      assert (p + q)[1..] == p[1..] + q;
      IndexOfAfter(p[1..], q, c);
    }
  }

  /** The last `c` of `p + [c] + q` is the one after `p` when `q` has none. */
  lemma LastIndexOfBefore(p: string, c: char, q: string)
    requires Lacks(q, c)
    ensures LastIndexOf(p + [c] + q, c) == |p|
  {
    var s := p + [c] + q;
    var k := LastIndexOf(s, c);
    assert s[|p|] == c;
    if k < |p| {
      assert false;
    } else if k > |p| {
      assert false;
    }
  }

  /** The three parts of `a + m + b` are recovered by slicing at `|a|` and `|a| + |m|`. */
  lemma Peel(a: string, m: string, b: string)
    ensures var s := a + m + b;
            && |s| == |a| + |m| + |b|
            && s[..|a|] == a
            && s[|a|..|a| + |m|] == m
            && s[|a| + |m|..] == b
  {
  }

  /**
    Round trip of the list text: when no item contains a comma, splitting a
    joined non-empty list gives back exactly the items, in order.
  */
  lemma {:induction false} SplitJoin(parts: seq<string>)
    requires |parts| > 0
    requires Free(parts, ',')
    ensures SplitList(Join(parts)) == parts
    decreases |parts|
  {
    if |parts| > 1 {
      var rest := parts[1..];
      var s := Join(parts);
      assert s == parts[0] + (Separator + Join(rest));
      IndexOfAfter(parts[0], Separator + Join(rest), ',');
      Peel(parts[0], Separator, Join(rest));
      SplitJoin(rest);
      assert [parts[0]] + rest == parts;
    }
  }

  /** The items of a list text, reading the empty text as the empty list. */
  function SplitItems(s: string): (items: seq<string>)
    ensures items == [] <==> s == ""
  {
    if s == "" then [] else SplitList(s)
  }

  /**
    Round trip of a list of non-empty comma-free items, the empty list
    included: its text splits back into exactly those items.
  */
  lemma SplitItemsJoin(parts: seq<string>)
    requires Free(parts, ',')
    requires forall i :: 0 <= i < |parts| ==> |parts[i]| > 0
    ensures SplitItems(Join(parts)) == parts
  {
    if |parts| > 0 {
      JoinSeparatorCount(parts);
      SplitJoin(parts);
    }
  }

  // ---- Decimal numerals of the `$n` placeholders ----

  predicate IsDigit(c: char)
  {
    '0' <= c <= '9'
  }

  predicate AllDigits(s: string)
  {
    forall i :: 0 <= i < |s| ==> IsDigit(s[i])
  }

  function DigitChar(d: nat): (c: char)
    requires d < 10
    ensures IsDigit(c)
  {
    ('0' as int + d) as char
  }

  function DigitValue(c: char): nat
    requires IsDigit(c)
  {
    (c as int - '0' as int)
  }

  /** The decimal numeral of `n`, most significant digit first, no leading zero. */
  function NatToString(n: nat): (s: string)
    ensures |s| > 0 && AllDigits(s)
    ensures |s| > 1 ==> s[0] != '0'
    decreases n
  {
    if n < 10 then [DigitChar(n)]
    else NatToString(n / 10) + [DigitChar(n % 10)]
  }

  /** The value of a decimal numeral. */
  function ParseNat(s: string): nat
    requires AllDigits(s)
    decreases |s|
  {
    if |s| == 0 then 0
    else ParseNat(s[..|s| - 1]) * 10 + DigitValue(s[|s| - 1])
  }

  /** Reading back the numeral of `n` yields `n`. */
  lemma {:induction false} ParseNatToString(n: nat)
    ensures ParseNat(NatToString(n)) == n
    decreases n
  {
    var s := NatToString(n);
    if n < 10 {
      assert s[..0] == "";
    } else {
      ParseNatToString(n / 10);
      assert s[..|s| - 1] == NatToString(n / 10);
    }
  }

  /** The `$n` placeholder text of the `n`-th bound parameter. */
  function Placeholder(n: nat): string
  {
    "$" + NatToString(n)
  }

  /** The parameter number a `$n` placeholder refers to, if `s` is one. */
  function ParsePlaceholder(s: string): Option<nat>
  {
    if |s| >= 2 && s[0] == '$' && AllDigits(s[1..]) then Some(ParseNat(s[1..]))
    else None
  }

  /** A placeholder names exactly the parameter number it was written for. */
  lemma PlaceholderRoundTrip(n: nat)
    ensures ParsePlaceholder(Placeholder(n)) == Some(n)
  {
    var p := Placeholder(n);
    assert p[1..] == NatToString(n);
    ParseNatToString(n);
  }

  /** Distinct parameter numbers get distinct placeholders. */
  lemma PlaceholderInjective(m: nat, n: nat)
    ensures Placeholder(m) == Placeholder(n) ==> m == n
  {
    PlaceholderRoundTrip(m);
    PlaceholderRoundTrip(n);
  }
}
