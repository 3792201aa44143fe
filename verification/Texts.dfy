/** Numbers as decimal text and back, and the order of strings in which the keys of
    a map are visited.  The printers and parsers of the snapshot and of the book are
    built on these.  A number that does not fit a machine word is not read, as in the
    source. */
module Texts {
  import opened Syntax

  function Digits(n: nat): string {
    if n < 10 then ['0' + n as char] else Digits(n / 10) + ['0' + (n % 10) as char]
  }

  const MAX_U64 := 0xFFFF_FFFF_FFFF_FFFF

  predicate AllDigits(s: string) {
    forall i :: 0 <= i < |s| ==> '0' <= s[i] <= '9'
  }

  function DigitsValue(s: string): nat
    requires AllDigits(s)
  {
    if s == "" then 0 else DigitsValue(s[..|s| - 1]) * 10 + (s[|s| - 1] - '0') as nat
  }

  /** Reading an unsigned 64-bit number: an optional plus sign and at least one digit. */
  function ParseNat(s: string): Option<nat> {
    var body := if s != "" && s[0] == '+' then s[1..] else s;
    if body == "" || !AllDigits(body) then None
    else if DigitsValue(body) <= MAX_U64 then Some(DigitsValue(body)) else None
  }

  lemma {:induction false} DigitsParse(n: nat)
    ensures Digits(n) != "" && AllDigits(Digits(n)) && DigitsValue(Digits(n)) == n
  {
    if n < 10 {
      assert Digits(n)[..0] == "";
    } else {
      DigitsParse(n / 10);
      var front, last := Digits(n / 10), '0' + (n % 10) as char;
      assert (front + [last])[..|front|] == front;
    }
  }

  /** Every number that fits is read back from its text. */
  lemma ParseDigits(n: nat)
    ensures ParseNat(Digits(n)) == if n <= MAX_U64 then Some(n) else None
    ensures ':' !in Digits(n)
  {
    DigitsParse(n);
  }

  lemma {:induction false} DigitsShort(n: nat)
    ensures |Digits(n)| <= if n == 0 then 1 else n
  {
    if n >= 10 {
      DigitsShort(n / 10);
    }
  }

  // ---- The order of strings ----

  predicate LexLess(a: string, b: string) {
    b != [] && (a == [] || a[0] < b[0] || (a[0] == b[0] && LexLess(a[1..], b[1..])))
  }

  ghost predicate FirstLess(a: string, b: string, i: nat) {
    i < |b| && i <= |a| && a[..i] == b[..i] && (i == |a| || a[i] < b[i])
  }

  /** The first place where two texts differ decides; an end comes before any character. */
  lemma {:induction false} LexLessMeans(a: string, b: string)
    ensures LexLess(a, b) <==> exists i: nat :: FirstLess(a, b, i)
  {
    if b == [] {
    } else if a == [] || a[0] < b[0] {
      assert FirstLess(a, b, 0);
    } else {
      LexLessMeans(a[1..], b[1..]);
      assert a == [a[0]] + a[1..] && b == [b[0]] + b[1..];
      forall i: nat ensures FirstLess(a, b, i + 1) <==> a[0] == b[0] && FirstLess(a[1..], b[1..], i) {
        assert i < |b[1..]| && i <= |a[1..]| ==>
                 a[..i + 1] == [a[0]] + a[1..][..i] && b[..i + 1] == [b[0]] + b[1..][..i];
        assert i < |b[1..]| && i <= |a[1..]| && a[..i + 1] == b[..i + 1] ==>
                 a[..i + 1][0] == b[..i + 1][0] && a[1..][..i] == a[..i + 1][1..] && b[1..][..i] == b[..i + 1][1..];
      }
      forall i: nat | FirstLess(a, b, i) ensures a[0] == b[0] && FirstLess(a[1..], b[1..], i - 1) {
        assert FirstLess(a, b, (i - 1) + 1);
      }
    }
  }

  lemma {:induction false} LexTotal(a: string, b: string)
    ensures a != b ==> LexLess(a, b) || LexLess(b, a)
    ensures !(LexLess(a, b) && LexLess(b, a)) && !LexLess(a, a)
  {
    if a != [] && b != [] {
      LexTotal(a[1..], b[1..]);
      assert a == [a[0]] + a[1..] && b == [b[0]] + b[1..];
    }
    if a != [] {
      LexTotal(a[1..], a[1..]);
    }
  }

  lemma {:induction false} LexTransitive(a: string, b: string, c: string)
    requires LexLess(a, b) && LexLess(b, c)
    ensures LexLess(a, c)
  {
    if a != [] && a[0] == b[0] == c[0] {
      LexTransitive(a[1..], b[1..], c[1..]);
    }
  }

  method Least(among: set<string>) returns (best: string)
    requires among != {}
    ensures best in among && forall c :: c in among && c != best ==> LexLess(best, c)
  {
    best :| best in among;
    var rest := among - {best};
    while rest != {}
      invariant rest <= among && best in among && best !in rest
      invariant forall c :: c in among && c !in rest && c != best ==> LexLess(best, c)
      decreases rest
    {
      var c :| c in rest;
      LexTotal(c, best);
      if LexLess(c, best) {
        forall d | d in among && d !in rest && d != best ensures LexLess(c, d) {
          LexTransitive(c, best, d);
        }
        best := c;
      }
      rest := rest - {c};
    }
  }

  /** The least element of a finite set of strings. */
  ghost function Smallest(among: set<string>): string
    requires among != {}
  {
    LeastExists(among);
    var s :| s in among && forall t :: t in among && t != s ==> LexLess(s, t);
    s
  }

  lemma {:induction false} LeastExists(among: set<string>)
    requires among != {}
    ensures exists s :: s in among && forall t :: t in among && t != s ==> LexLess(s, t)
  {
    var s :| s in among;
    if among != {s} {
      var rest := among - {s};
      LeastExists(rest);
      var r :| r in rest && forall t :: t in rest && t != r ==> LexLess(r, t);
      LexTotal(s, r);
      if LexLess(s, r) {
        forall t | t in among && t != s ensures LexLess(s, t) {
          if t != r {
            LexTransitive(s, r, t);
          }
        }
      } else {
        assert forall t :: t in among && t != r ==> t == s || t in rest;
      }
    }
  }

  lemma SmallestIs(among: set<string>, s: string)
    requires s in among && forall t :: t in among && t != s ==> LexLess(s, t)
    ensures Smallest(among) == s
  {
    LexTotal(s, Smallest(among));
  }

  /** The elements in increasing order. */
  ghost function InOrder(among: set<string>): seq<string> {
    if among == {} then [] else [Smallest(among)] + InOrder(among - {Smallest(among)})
  }

  lemma {:induction false} InOrderLists(among: set<string>)
    ensures |InOrder(among)| == |among|
    ensures forall s :: s in among <==> s in InOrder(among)
    ensures forall i, j :: 0 <= i < j < |InOrder(among)| ==> InOrder(among)[i] != InOrder(among)[j]
  {
    if among != {} {
      InOrderLists(among - {Smallest(among)});
    }
  }

  /** The values of a map in the order of their keys. */
  ghost function ValuesInOrder<V>(m: map<string, V>): (values: seq<V>)
    ensures |values| == |m|
  {
    InOrderLists(m.Keys);
    seq(|m|, i requires 0 <= i < |m| => m[InOrder(m.Keys)[i]])
  }

  lemma ValueAt<V>(m: map<string, V>, i: nat)
    requires i < |m|
    ensures i < |InOrder(m.Keys)| && InOrder(m.Keys)[i] in m && ValuesInOrder(m)[i] == m[InOrder(m.Keys)[i]]
  {
    InOrderLists(m.Keys);
  }

  lemma ValuesAre<V>(m: map<string, V>)
    ensures |InOrder(m.Keys)| == |m|
    ensures forall k :: k in m ==> m[k] in ValuesInOrder(m)
    ensures forall v :: v in ValuesInOrder(m) ==> exists k :: k in m && m[k] == v
  {
    InOrderLists(m.Keys);
    forall k | k in m ensures m[k] in ValuesInOrder(m) {
      var i :| 0 <= i < |m| && InOrder(m.Keys)[i] == k;
      assert ValuesInOrder(m)[i] == m[k];
    }
    forall v | v in ValuesInOrder(m) ensures exists k :: k in m && m[k] == v {
      var i :| 0 <= i < |m| && ValuesInOrder(m)[i] == v;
      assert InOrder(m.Keys)[i] in m;
    }
  }

  method KeysInOrder(among: set<string>) returns (keys: seq<string>)
    ensures keys == InOrder(among)
  {
    keys := [];
    var rest := among;
    while rest != {}
      invariant keys + InOrder(rest) == InOrder(among)
      decreases rest
    {
      var first := Least(rest);
      SmallestIs(rest, first);
      keys := keys + [first];
      rest := rest - {first};
    }
  }
}
