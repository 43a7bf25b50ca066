/** What the operations of Text do, told character by character. */
module TextFacts {
  import opened Wrappers
  import opened Text

  /** Letters of the English alphabet change case, everything else stays. */
  lemma CaseIs(s: string, i: nat)
    requires i < |s|
    ensures |ToLower(s)| == |ToUpper(s)| == |s|
    ensures ToLower(s)[i] == if 'A' <= s[i] <= 'Z' then 'a' + (s[i] - 'A') else s[i]
    ensures ToUpper(s)[i] == if 'a' <= s[i] <= 'z' then 'A' + (s[i] - 'a') else s[i]
  {
    if 'A' <= s[i] <= 'Z' {
      assert 'a' + (s[i] - 'A') == (s[i] as int + 32) as char;
    }
    if 'a' <= s[i] <= 'z' {
      assert 'A' + (s[i] - 'a') == (s[i] as int - 32) as char;
    }
  }

  /** A blank, a tab, a line break of any kind, a vertical tab or a form feed. */
  predicate White(c: char) { c as int in {0x20, 0x09, 0x0a, 0x0b, 0x0c, 0x0d} }

  predicate AllWhite(s: string) { forall i :: 0 <= i < |s| ==> White(s[i]) }

  predicate NoOuterWhite(s: string) { s == "" || (!White(s[0]) && !White(s[|s| - 1])) }

  lemma {:induction false} TrimLeftIs(a: string, s: string)
    requires AllWhite(a) && (s == "" || !White(s[0]))
    ensures TrimLeft(a + s) == s
  {
    if a == "" {
      assert a + s == s;
    } else {
      assert White(a[0]) && (a + s)[1..] == a[1..] + s;
      TrimLeftIs(a[1..], s);
    }
  }

  lemma {:induction false} TrimRightIs(s: string, b: string)
    requires AllWhite(b) && (s == "" || !White(s[|s| - 1]))
    ensures TrimRight(s + b) == s
  {
    if b == "" {
      assert s + b == s;
    } else {
      assert White(b[|b| - 1]) && (s + b)[..|s + b| - 1] == s + b[..|b| - 1];
      TrimRightIs(s, b[..|b| - 1]);
    }
  }

  /** Trimming takes away the white space around and nothing else. */
  lemma TrimIs(a: string, s: string, b: string)
    requires AllWhite(a) && NoOuterWhite(s) && AllWhite(b)
    ensures TrimSpace(a + s + b) == s
  {
    if s == "" {
      TrimLeftIs(a + b, "");
      assert a + s + b == (a + b) + "";
    } else {
      TrimLeftIs(a, s + b);
      assert a + s + b == a + (s + b);
      TrimRightIs(s, b);
    }
  }

  /** A text is cut at the first separator, wherever that is. */
  lemma {:induction false} CutIs(a: string, separator: char, b: string)
    requires separator !in a
    ensures Cut(a + [separator] + b, separator) == Some((a, b))
  {
    var s := a + [separator] + b;
    if a == "" {
      assert s[1..] == b;
    } else {
      assert s[1..] == a[1..] + [separator] + b;
      CutIs(a[1..], separator, b);
      assert [a[0]] + a[1..] == a;
    }
  }

  lemma {:induction false} CutNone(s: string, separator: char)
    requires separator !in s
    ensures Cut(s, separator) == None
  {
    if s != "" {
      CutNone(s[1..], separator);
    }
  }

  lemma {:induction false} CutSound(s: string, separator: char)
    ensures Cut(s, separator).Some? ==>
              var (a, b) := Cut(s, separator).value; s == a + [separator] + b && separator !in a
    ensures Cut(s, separator).None? ==> separator !in s
  {
    if s != "" {
      CutSound(s[1..], separator);
      assert s == [s[0]] + s[1..];
    }
  }

  /** The parts joined by the separator. */
  function Join(parts: seq<string>, c: char): string {
    if parts == [] then "" else if |parts| == 1 then parts[0] else parts[0] + [c] + Join(parts[1..], c)
  }

  lemma JoinCons(x: char, parts: seq<string>, c: char)
    requires parts != []
    ensures Join([[x] + parts[0]] + parts[1..], c) == [x] + Join(parts, c)
  {
    var longer := [[x] + parts[0]] + parts[1..];
    assert longer[1..] == parts[1..];
    if |parts| > 1 {
      assert [x] + parts[0] + [c] + Join(parts[1..], c) == [x] + (parts[0] + [c] + Join(parts[1..], c));
    }
  }

  /** Splitting is undone by joining, and no part holds the separator. */
  lemma {:induction false} SplitIs(s: string, c: char)
    ensures Join(Split(s, c), c) == s
    ensures forall k :: 0 <= k < |Split(s, c)| ==> c !in Split(s, c)[k]
  {
    if s != "" {
      SplitIs(s[1..], c);
      var rest := Split(s[1..], c);
      if s[0] == c {
        assert ([""] + rest)[1..] == rest;
        assert "" + [c] + Join(rest, c) == [c] + s[1..];
      } else {
        JoinCons(s[0], rest, c);
      }
      assert [s[0]] + s[1..] == s;
    }
  }

  /** The part before a separator is split off whole. */
  lemma {:induction false} SplitAt(a: string, b: string, c: char)
    requires c !in a
    ensures Split(a + [c] + b, c) == [a] + Split(b, c)
  {
    var s := a + [c] + b;
    if a == "" {
      assert s[1..] == b;
    } else {
      SplitAt(a[1..], b, c);
      assert s[1..] == a[1..] + [c] + b;
      assert [a[0]] + a[1..] == a;
    }
  }

  lemma {:induction false} SplitWhole(a: string, c: char)
    requires c !in a
    ensures Split(a, c) == [a]
  {
    if a != "" {
      SplitWhole(a[1..], c);
      assert [a[0]] + a[1..] == a;
    }
  }

  lemma SuffixIff(s: string, t: string)
    ensures HasSuffix(s, t) <==> exists k :: 0 <= k <= |s| && s == s[..k] + t
  {
    if HasSuffix(s, t) {
      var k := |s| - |t|;
      assert s == s[..k] + t;
    }
    if k :| 0 <= k <= |s| && s == s[..k] + t {
      assert s[k..] == t;
    }
  }

  predicate StandsAt(s: string, part: string, k: nat) { k + |part| <= |s| && s[k..k + |part|] == part }

  /** The part stands somewhere in the text. */
  lemma {:induction false} ContainsIff(s: string, part: string)
    ensures Contains(s, part) <==> exists k: nat :: StandsAt(s, part, k)
  {
    if |s| >= |part| && s[..|part|] == part {
      assert s[0..0 + |part|] == s[..|part|];
      assert StandsAt(s, part, 0);
    }
    if StandsAt(s, part, 0) {
      assert s[..|part|] == s[0..0 + |part|];
    }
    if s != "" {
      ContainsIff(s[1..], part);
      forall k: nat | k > 0
        ensures StandsAt(s, part, k) <==> StandsAt(s[1..], part, k - 1)
      {
        if k + |part| <= |s| {
          assert s[1..][k - 1..k - 1 + |part|] == s[k..k + |part|];
        }
      }
      if k: nat :| StandsAt(s[1..], part, k) {
        assert StandsAt(s, part, k + 1);
      }
    }
  }

  /** The first difference decides, and a text comes before every longer one that starts with it. */
  predicate DiffersAt(a: string, b: string, k: nat) {
    k <= |a| && k < |b| && a[..k] == b[..k] && (k == |a| || a[k] < b[k])
  }

  lemma {:induction false} LessIff(a: string, b: string)
    ensures Less(a, b) <==> exists k: nat :: DiffersAt(a, b, k)
  {
    if b != "" && a == "" {
      assert DiffersAt(a, b, 0);
    }
    if a != "" && b != "" {
      if a[0] < b[0] {
        assert DiffersAt(a, b, 0);
      }
      if a[0] == b[0] {
        LessIff(a[1..], b[1..]);
        if k: nat :| DiffersAt(a[1..], b[1..], k) {
          assert a[..k + 1] == [a[0]] + a[1..][..k] && b[..k + 1] == [b[0]] + b[1..][..k];
          assert DiffersAt(a, b, k + 1);
        }
      }
      if k: nat :| DiffersAt(a, b, k) {
        if k > 0 {
          assert a[0] == a[..k][0] == b[..k][0] == b[0];
          assert a[1..][..k - 1] == a[..k][1..] && b[1..][..k - 1] == b[..k][1..];
          assert DiffersAt(a[1..], b[1..], k - 1);
        }
      }
    }
  }
}
