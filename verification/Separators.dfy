/** Texts of fields between separators: when such a text can be cut in another way. */
module Separators {
  function Interleave(fields: seq<string>, seps: seq<string>): string
    requires |fields| == |seps| + 1
  {
    if seps == [] then fields[0] else fields[0] + seps[0] + Interleave(fields[1..], seps[1..])
  }

  predicate OccursAt(t: string, s: string, n: nat) {
    n + |t| <= |s| && s[n..n + |t|] == t
  }

  ghost predicate Occurs(t: string, s: string) {
    exists n: nat :: OccursAt(t, s, n)
  }

  /** `r` differs from `s` at offset `d` within two characters. */
  predicate Clash(s: string, d: nat, r: string)
    requires d < |s| && r != ""
  {
    s[d] != r[0] || (d + 1 < |s| && |r| > 1 && s[d + 1] != r[1])
  }

  /** No occurrence of `r` begins inside one of `s`. */
  predicate Apart(s: string, r: string)
    requires r != ""
  {
    forall d :: 0 < d < |s| ==> Clash(s, d, r)
  }

  /** Two separators that never overlap and are never prefixes of one another. */
  predicate Rivals(s: string, r: string) {
    s != "" && r != "" && Apart(s, r) && Apart(r, s) && (s <= r || r <= s ==> s == r)
  }

  ghost predicate AllRivals(ss: seq<string>, rs: seq<string>) {
    |ss| == |rs| && forall k :: 0 <= k < |ss| ==> Rivals(ss[k], rs[k])
  }

  /** The field before or the field after the `k`-th separator contains `t`. */
  ghost predicate Beside(fields: seq<string>, k: nat, t: string)
    requires k + 1 < |fields|
  {
    Occurs(t, fields[k]) || Occurs(t, fields[k + 1])
  }

  lemma OccurrencesApart(text: string, s: string, a: nat, r: string, b: nat)
    requires r != "" && Apart(s, r) && OccursAt(s, text, a) && OccursAt(r, text, b) && a < b
    ensures a + |s| <= b
  {
    assert forall d :: 0 <= d < |s| ==> text[a + d] == text[a..a + |s|][d] == s[d];
    assert forall d :: 0 <= d < |r| ==> text[b + d] == text[b..b + |r|][d] == r[d];
    assert b < a + |s| ==> Clash(s, b - a, r);
  }

  lemma Unfold(fields: seq<string>, seps: seq<string>)
    requires |fields| == |seps| + 1 && seps != []
    ensures var (text, a) := (Interleave(fields, seps), |fields[0]|);
            && text[..a] == fields[0] && OccursAt(seps[0], text, a)
            && text[a + |seps[0]|..] == Interleave(fields[1..], seps[1..])
  {
  }

  lemma Dropped(text: string, c: nat, r: string, b: nat)
    requires c <= b && OccursAt(r, text, b)
    ensures OccursAt(r, text[c..], b - c) && text[c..][b - c + |r|..] == text[b + |r|..]
  {
    assert text[c..][b - c..b - c + |r|] == text[b..b + |r|];
  }

  /** An occurrence behind a known tail of the text is one in the text. */
  lemma Behind(text: string, c: nat, r: string, n: nat)
    requires c <= |text| && OccursAt(r, text[c..], n)
    ensures OccursAt(r, text, c + n) && text[c + n + |r|..] == text[c..][n + |r|..]
  {
    assert text[c + n..c + n + |r|] == text[c..][n..n + |r|];
  }

  lemma Inside(text: string, a: nat, field: string, r: string, n: nat)
    requires a <= |text| && text[..a] == field && OccursAt(r, text, n) && n + |r| <= a
    ensures OccursAt(r, field, n)
  {
    assert field[n..n + |r|] == text[n..n + |r|];
  }

  /** One step of the lemma below: `r` ends before the first separator, or the next
      of the other cut lies behind it. */
  lemma LateStep(fields: seq<string>, seps: seq<string>, r: string, n: nat, others: seq<string>, rivals: seq<string>)
    returns (m: nat)
    requires |fields| == |seps| + 1 == |others| && AllRivals(seps, rivals) && r != "" && seps != []
    requires OccursAt(r, Interleave(fields, seps), n)
    requires Interleave(fields, seps)[n + |r|..] == Interleave(others, rivals)
    ensures Occurs(r, fields[0])
         || (OccursAt(rivals[0], Interleave(fields[1..], seps[1..]), m)
             && Interleave(fields[1..], seps[1..])[m + |rivals[0]|..] == Interleave(others[1..], rivals[1..]))
  {
    var text := Interleave(fields, seps);
    var (a, b) := (|fields[0]|, n + |r| + |others[0]|);
    Unfold(fields, seps);
    Unfold(others, rivals);
    TailRivals(seps, rivals);
    hide Rivals, AllRivals, Interleave, Apart;
    Behind(text, n + |r|, rivals[0], |others[0]|);
    hide OccursAt;
    m := 0;
    if b <= a {
      Inside(text, a, fields[0], r, n);
    } else {
      OccurrencesOfRivals(text, seps[0], a, rivals[0], b);
      var c := a + |seps[0]|;
      Dropped(text, c, rivals[0], b);
      m := b - c;
    }
  }

  /** The text holds `r` at `n`, and then the fields of another cut. If that cut
      runs late, one of its separators lies inside a field. */
  lemma {:induction false} LateCut(fields: seq<string>, seps: seq<string>, r: string, n: nat,
                                   others: seq<string>, rivals: seq<string>) returns (k: nat)
    requires |fields| == |seps| + 1 == |others| && AllRivals(seps, rivals) && r != ""
    requires OccursAt(r, Interleave(fields, seps), n)
    requires Interleave(fields, seps)[n + |r|..] == Interleave(others, rivals)
    ensures k <= |seps| && Occurs(if k == 0 then r else rivals[k - 1], fields[k])
    decreases |seps|
  {
    k := 0;
    if seps == [] {
      assert OccursAt(r, fields[0], n);
    } else {
      var m := LateStep(fields, seps, r, n, others, rivals);
      TailRivals(seps, rivals);
      hide Interleave, AllRivals, OccursAt, Occurs, Rivals;
      if !Occurs(r, fields[0]) {
        var j := LateCut(fields[1..], seps[1..], rivals[0], m, others[1..], rivals[1..]);
        k := j + 1;
        assert fields[k] == fields[1..][j];
      }
    }
  }

  lemma TailRivals(ss: seq<string>, rs: seq<string>)
    requires AllRivals(ss, rs) && ss != []
    ensures Rivals(ss[0], rs[0]) && ss[0] != "" && rs[0] != "" && AllRivals(ss[1..], rs[1..])
  {
  }

  /** Two cuts of one text are the same, or a separator of the second lies inside a
      field of the first beside its own separator. */
  lemma {:induction false} Recut(fields: seq<string>, seps: seq<string>, others: seq<string>, rivals: seq<string>)
    requires |fields| == |seps| + 1 == |others| && AllRivals(seps, rivals)
    requires Interleave(fields, seps) == Interleave(others, rivals)
    ensures (fields == others && seps == rivals) || exists k :: 0 <= k < |seps| && Beside(fields, k, rivals[k])
    decreases |seps|
  {
    if seps == [] {
      assert fields == [fields[0]] && others == [others[0]];
    } else {
      var text := Interleave(fields, seps);
      var (a, b) := (|fields[0]|, |others[0]|);
      Unfold(fields, seps);
      Unfold(others, rivals);
      TailRivals(seps, rivals);
      hide Rivals, AllRivals, Interleave, Apart;
      if a == b {
        SameSeparator(text, a, seps[0], rivals[0]);
        Recut(fields[1..], seps[1..], others[1..], rivals[1..]);
        assert fields == [fields[0]] + fields[1..] && others == [others[0]] + others[1..];
        assert seps == [seps[0]] + seps[1..] && rivals == [rivals[0]] + rivals[1..];
        if fields[1..] != others[1..] || seps[1..] != rivals[1..] {
          var k :| 0 <= k < |seps| - 1 && Beside(fields[1..], k, rivals[1..][k]);
          assert Beside(fields, k + 1, rivals[k + 1]);
        }
      } else if b < a {
        EarlyCut(text, b, rivals[0], a, seps[0], fields[0]);
        assert Beside(fields, 0, rivals[0]);
      } else {
        OccurrencesOfRivals(text, seps[0], a, rivals[0], b);
        var c := a + |seps[0]|;
        Dropped(text, c, rivals[0], b);
        var k := LateCut(fields[1..], seps[1..], rivals[0], b - c, others[1..], rivals[1..]);
        assert Beside(fields, k, rivals[k]);
      }
    }
  }

  lemma SameSeparator(text: string, a: nat, s: string, r: string)
    requires Rivals(s, r) && OccursAt(s, text, a) && OccursAt(r, text, a)
    ensures s == r
  {
    assert |s| <= |r| ==> s == text[a..a + |r|][..|s|];
    assert |r| <= |s| ==> r == text[a..a + |s|][..|r|];
  }

  lemma OccurrencesOfRivals(text: string, s: string, a: nat, r: string, b: nat)
    requires Rivals(s, r) && OccursAt(s, text, a) && OccursAt(r, text, b) && a < b
    ensures a + |s| <= b
  {
    OccurrencesApart(text, s, a, r, b);
  }

  lemma EarlyCut(text: string, b: nat, r: string, a: nat, s: string, field: string)
    requires Rivals(s, r) && OccursAt(s, text, a) && OccursAt(r, text, b) && b < a && text[..a] == field
    ensures Occurs(r, field)
  {
    OccurrencesApart(text, r, b, s, a);
    assert field[b..b + |r|] == text[b..b + |r|];
    assert OccursAt(r, field, b);
  }

  // ----- Cutting anew -----

  lemma UnfoldStep(fields: seq<string>, seps: seq<string>)
    requires |fields| == |seps| + 1 && seps != []
    ensures Interleave(fields, seps) == fields[0] + seps[0] + Interleave(fields[1..], seps[1..])
  {
  }

  /** The text after the first field depends on the other fields only. */
  lemma SameAfter(fields: seq<string>, others: seq<string>, seps: seq<string>) returns (tail: string)
    requires |fields| == |seps| + 1 == |others| && fields[1..] == others[1..]
    ensures Interleave(fields, seps) == fields[0] + tail && Interleave(others, seps) == others[0] + tail
  {
    if seps == [] {
      tail := "";
    } else {
      UnfoldStep(fields, seps);
      UnfoldStep(others, seps);
      hide Interleave;
      tail := seps[0] + Interleave(fields[1..], seps[1..]);
    }
  }

  /** Cuts that differ only around one separator, to the same effect. */
  lemma {:induction false} SameAround(fields: seq<string>, seps: seq<string>, others: seq<string>,
                                      rivals: seq<string>, k: nat)
    requires |fields| == |seps| + 1 == |others| && |rivals| == |seps| && k < |seps|
    requires fields[..k] == others[..k] && fields[k + 2..] == others[k + 2..]
    requires seps[..k] == rivals[..k] && seps[k + 1..] == rivals[k + 1..]
    requires fields[k] + seps[k] + fields[k + 1] == others[k] + rivals[k] + others[k + 1]
    ensures Interleave(fields, seps) == Interleave(others, rivals)
    decreases k
  {
    UnfoldStep(fields, seps);
    UnfoldStep(others, rivals);
    hide Interleave;
    if k == 0 {
      assert fields[1..][1..] == fields[2..] && others[1..][1..] == others[2..];
      var tail := SameAfter(fields[1..], others[1..], seps[1..]);
      assert fields[0] + seps[0] + (fields[1] + tail) == fields[0] + seps[0] + fields[1] + tail;
      assert others[0] + rivals[0] + (others[1] + tail) == others[0] + rivals[0] + others[1] + tail;
    } else {
      assert fields[0] == fields[..k][0] && others[0] == others[..k][0];
      assert seps[0] == seps[..k][0] && rivals[0] == rivals[..k][0];
      assert fields[1..][..k - 1] == fields[..k][1..] && others[1..][..k - 1] == others[..k][1..];
      assert seps[1..][..k - 1] == seps[..k][1..] && rivals[1..][..k - 1] == rivals[..k][1..];
      SameAround(fields[1..], seps[1..], others[1..], rivals[1..], k - 1);
    }
  }

  /** A separator beside its place allows another cut. */
  lemma CutAnew(fields: seq<string>, seps: seq<string>, k: nat, r: string) returns (others: seq<string>)
    requires |fields| == |seps| + 1 && k < |seps| && Beside(fields, k, r) && seps[k] != "" && r != ""
    ensures |others| == |fields| && others != fields
    ensures Interleave(others, seps[k := r]) == Interleave(fields, seps)
  {
    if Occurs(r, fields[k]) {
      var n: nat :| OccursAt(r, fields[k], n);
      var (x, y) := (fields[k][..n], fields[k][n + |r|..]);
      assert fields[k] == x + r + y;
      others := fields[k := x][k + 1 := y + seps[k] + fields[k + 1]];
      assert |others[k]| < |fields[k]|;
      assert fields[k] + seps[k] + fields[k + 1] == x + r + (y + seps[k] + fields[k + 1]);
    } else {
      var n: nat :| OccursAt(r, fields[k + 1], n);
      var (x, y) := (fields[k + 1][..n], fields[k + 1][n + |r|..]);
      assert fields[k + 1] == x + r + y;
      others := fields[k := fields[k] + seps[k] + x][k + 1 := y];
      assert |others[k]| > |fields[k]|;
      assert fields[k] + seps[k] + fields[k + 1] == (fields[k] + seps[k] + x) + r + y;
    }
    SameAround(fields, seps, others, seps[k := r], k);
  }

  // ----- Regrouping -----

  /** A field may count as part of the separators around it. */
  lemma {:induction false} Absorb(fields: seq<string>, seps: seq<string>, k: nat)
    requires |fields| == |seps| + 1 && 0 < k < |seps|
    ensures Interleave(fields, seps)
            == Interleave(fields[..k] + fields[k + 1..],
                          seps[..k - 1] + [seps[k - 1] + fields[k] + seps[k]] + seps[k + 1..])
    decreases k
  {
    var (f, s) := (fields[..k] + fields[k + 1..], seps[..k - 1] + [seps[k - 1] + fields[k] + seps[k]] + seps[k + 1..]);
    if k == 1 {
      assert f[1..] == fields[2..] && s[1..] == seps[2..];
      assert fields[1..][1..] == fields[2..] && seps[1..][1..] == seps[2..];
      var tail := Interleave(fields[2..], seps[2..]);
      assert Interleave(fields[1..], seps[1..]) == fields[1] + seps[1] + tail;
      assert Interleave(f, s) == fields[0] + (seps[0] + fields[1] + seps[1]) + tail;
    } else {
      Absorb(fields[1..], seps[1..], k - 1);
      assert f[1..] == fields[1..][..k - 1] + fields[1..][k..];
      assert s[1..] == seps[1..][..k - 2] + [seps[1..][k - 2] + fields[1..][k - 1] + seps[1..][k - 1]] + seps[1..][k..];
    }
  }

  lemma {:induction false} LastField(fields: seq<string>, seps: seq<string>, s: string, f: string)
    requires |fields| == |seps| + 1
    ensures Interleave(fields + [f], seps + [s]) == Interleave(fields, seps) + s + f
  {
    if seps == [] {
      assert (fields + [f])[1..] == [f] && ([] + [s])[1..] == [];
      assert Interleave([f], []) == f;
    } else {
      LastField(fields[1..], seps[1..], s, f);
      assert (fields + [f])[1..] == fields[1..] + [f] && (seps + [s])[1..] == seps[1..] + [s];
    }
  }
}
