/** Word alignment by edit distance (tools/wer.py). */
module Align {

  /** One column of an alignment: a reference word, a hypothesis word, or one above the other. */
  datatype Column<W> = Both(r: W, h: W) | Del(r: W) | Ins(h: W)

  type Alignment<W> = seq<Column<W>>

  /** The reference row of an alignment. */
  ghost function Top<W>(a: Alignment<W>): seq<W> {
    if a == [] then [] else
      Top(a[..|a| - 1]) + match a[|a| - 1] case Both(r, _) => [r] case Del(r) => [r] case Ins(_) => []
  }

  /** The hypothesis row of an alignment. */
  ghost function Bottom<W>(a: Alignment<W>): seq<W> {
    if a == [] then [] else
      Bottom(a[..|a| - 1]) + match a[|a| - 1] case Both(_, h) => [h] case Del(_) => [] case Ins(h) => [h]
  }

  /** Substitutions, deletions and insertions of an alignment. */
  ghost function Cost<W>(a: Alignment<W>): nat {
    if a == [] then 0 else
      Cost(a[..|a| - 1]) + match a[|a| - 1] case Both(r, h) => if r == h then 0 else 1 case _ => 1
  }

  /** The positions an alignment puts above each other with the same word. */
  ghost function Matches<W>(a: Alignment<W>): seq<(nat, nat)> {
    if a == [] then [] else
      var f := a[..|a| - 1];
      Matches(f) + match a[|a| - 1]
                   case Both(r, h) => if r == h then [(|Top(f)|, |Bottom(f)|)] else []
                   case _ => []
  }

  ghost predicate Aligns<W>(a: Alignment<W>, ref: seq<W>, hyp: seq<W>) {
    Top(a) == ref && Bottom(a) == hyp
  }

  // ----- The recurrence

  function Min3(a: nat, b: nat, c: nat): nat {
    if a <= b && a <= c then a else if b <= c then b else c
  }

  /** Edit distance of the first `i` reference words to the first `j` hypothesis words. */
  ghost function Dist<W>(ref: seq<W>, hyp: seq<W>, i: nat, j: nat): nat
    requires i <= |ref| && j <= |hyp|
  {
    if i == 0 then j
    else if j == 0 then i
    else Min3(Dist(ref, hyp, i - 1, j - 1) + (if ref[i - 1] != hyp[j - 1] then 1 else 0),
              Dist(ref, hyp, i - 1, j) + 1,
              Dist(ref, hyp, i, j - 1) + 1)
  }

  /** The way back that cell `(i, j)` records: 0 diagonal, 1 up, 2 left. */
  ghost function Back<W>(ref: seq<W>, hyp: seq<W>, i: nat, j: nat): nat
    requires i <= |ref| && j <= |hyp|
  {
    if i == 0 then (if j == 0 then 0 else 2)
    else if j == 0 then 1
    else
      var d := Dist(ref, hyp, i - 1, j - 1) + if ref[i - 1] != hyp[j - 1] then 1 else 0;
      var u := Dist(ref, hyp, i - 1, j) + 1;
      var l := Dist(ref, hyp, i, j - 1) + 1;
      if d <= u && d <= l then 0 else if u <= l then 1 else 2
  }

  // ----- The recurrence is a lower bound for every alignment

  lemma {:induction false} NoAlignmentIsCheaper<W>(ref: seq<W>, hyp: seq<W>, a: Alignment<W>, i: nat, j: nat)
    requires i <= |ref| && j <= |hyp| && Aligns(a, ref[..i], hyp[..j])
    ensures Dist(ref, hyp, i, j) <= Cost(a)
    decreases |a|
  {
    hide Dist, Cost, Top, Bottom;
    DistSteps(ref, hyp, i, j);
    if a != [] {
      var f, c := a[..|a| - 1], a[|a| - 1];
      assert a == f + [c];
      AddColumn(f, c);
      match c
      case Both(r, h) =>
        LastWord(ref, i, Top(f), r);
        LastWord(hyp, j, Bottom(f), h);
        NoAlignmentIsCheaper(ref, hyp, f, i - 1, j - 1);
      case Del(r) =>
        LastWord(ref, i, Top(f), r);
        NoAlignmentIsCheaper(ref, hyp, f, i - 1, j);
      case Ins(h) =>
        LastWord(hyp, j, Bottom(f), h);
        NoAlignmentIsCheaper(ref, hyp, f, i, j - 1);
    } else {
      Nothing<W>();
      assert |ref[..i]| == i && |hyp[..j]| == j;
    }
  }

  lemma {:induction false} LastWord<W>(words: seq<W>, i: nat, front: seq<W>, w: W)
    requires i <= |words| && words[..i] == front + [w]
    ensures i > 0 && front == words[..i - 1] && w == words[i - 1]
  {
    assert |words[..i]| == i;
    assert front == words[..i][..i - 1] && w == words[..i][i - 1];
  }

  /** What the recurrence allows for each kind of last column. */
  lemma {:induction false} DistSteps<W>(ref: seq<W>, hyp: seq<W>, i: nat, j: nat)
    requires i <= |ref| && j <= |hyp|
    ensures i == j == 0 ==> Dist(ref, hyp, i, j) == 0
    ensures i > 0 ==> Dist(ref, hyp, i, j) <= Dist(ref, hyp, i - 1, j) + 1
    ensures j > 0 ==> Dist(ref, hyp, i, j) <= Dist(ref, hyp, i, j - 1) + 1
    ensures i > 0 && j > 0 ==>
              Dist(ref, hyp, i, j) <= Dist(ref, hyp, i - 1, j - 1) + if ref[i - 1] == hyp[j - 1] then 0 else 1
  {
  }

  // ----- The recorded way back is an alignment that attains it

  ghost function Chosen<W>(ref: seq<W>, hyp: seq<W>, i: nat, j: nat): Alignment<W>
    requires i <= |ref| && j <= |hyp|
    decreases i + j
  {
    if i == 0 && j == 0 then []
    else match Back(ref, hyp, i, j)
      case 0 => Chosen(ref, hyp, i - 1, j - 1) + [Both(ref[i - 1], hyp[j - 1])]
      case 1 => Chosen(ref, hyp, i - 1, j) + [Del(ref[i - 1])]
      case _ => Chosen(ref, hyp, i, j - 1) + [Ins(hyp[j - 1])]
  }

  /** One step of the way back: the column it adds and what that costs. */
  lemma {:induction false} StepBack<W>(ref: seq<W>, hyp: seq<W>, i: nat, j: nat)
    requires i <= |ref| && j <= |hyp|
    ensures i == j == 0 ==> Chosen(ref, hyp, i, j) == [] && Dist(ref, hyp, i, j) == 0
    ensures i > 0 || j > 0 ==>
              match Back(ref, hyp, i, j)
              case 0 =>
                && i > 0 && j > 0
                && Chosen(ref, hyp, i, j) == Chosen(ref, hyp, i - 1, j - 1) + [Both(ref[i - 1], hyp[j - 1])]
                && Dist(ref, hyp, i, j) == Dist(ref, hyp, i - 1, j - 1) + (if ref[i - 1] == hyp[j - 1] then 0 else 1)
              case 1 =>
                && i > 0
                && Chosen(ref, hyp, i, j) == Chosen(ref, hyp, i - 1, j) + [Del(ref[i - 1])]
                && Dist(ref, hyp, i, j) == Dist(ref, hyp, i - 1, j) + 1
              case _ =>
                && j > 0
                && Chosen(ref, hyp, i, j) == Chosen(ref, hyp, i, j - 1) + [Ins(hyp[j - 1])]
                && Dist(ref, hyp, i, j) == Dist(ref, hyp, i, j - 1) + 1
  {
  }

  lemma {:induction false} ChosenAttains<W>(ref: seq<W>, hyp: seq<W>, i: nat, j: nat)
    requires i <= |ref| && j <= |hyp|
    ensures Aligns(Chosen(ref, hyp, i, j), ref[..i], hyp[..j])
    ensures Cost(Chosen(ref, hyp, i, j)) == Dist(ref, hyp, i, j)
    decreases i + j
  {
    hide Aligns, Cost, Chosen, Dist, Back;
    StepBack(ref, hyp, i, j);
    if i == 0 && j == 0 {
      AlignsNothing(ref, hyp);
    } else if Back(ref, hyp, i, j) == 0 {
      ChosenAttains(ref, hyp, i - 1, j - 1);
      AddBoth(Chosen(ref, hyp, i - 1, j - 1), ref, hyp, i, j);
    } else if Back(ref, hyp, i, j) == 1 {
      ChosenAttains(ref, hyp, i - 1, j);
      AddDel(Chosen(ref, hyp, i - 1, j), ref, hyp, i, j);
    } else {
      ChosenAttains(ref, hyp, i, j - 1);
      AddIns(Chosen(ref, hyp, i, j - 1), ref, hyp, i, j);
    }
  }

  lemma {:induction false} AlignsNothing<W>(ref: seq<W>, hyp: seq<W>)
    ensures Aligns<W>([], ref[..0], hyp[..0]) && Cost<W>([]) == 0
  {
  }

  lemma {:induction false} AddBoth<W>(f: Alignment<W>, ref: seq<W>, hyp: seq<W>, i: nat, j: nat)
    requires 0 < i <= |ref| && 0 < j <= |hyp| && Aligns(f, ref[..i - 1], hyp[..j - 1])
    ensures Aligns(f + [Both(ref[i - 1], hyp[j - 1])], ref[..i], hyp[..j])
    ensures Cost(f + [Both(ref[i - 1], hyp[j - 1])]) == Cost(f) + (if ref[i - 1] == hyp[j - 1] then 0 else 1)
  {
    hide Top, Bottom, Cost;
    AddColumn(f, Both(ref[i - 1], hyp[j - 1]));
    assert ref[..i] == ref[..i - 1] + [ref[i - 1]] && hyp[..j] == hyp[..j - 1] + [hyp[j - 1]];
  }

  lemma {:induction false} AddDel<W>(f: Alignment<W>, ref: seq<W>, hyp: seq<W>, i: nat, j: nat)
    requires 0 < i <= |ref| && j <= |hyp| && Aligns(f, ref[..i - 1], hyp[..j])
    ensures Aligns(f + [Del(ref[i - 1])], ref[..i], hyp[..j]) && Cost(f + [Del(ref[i - 1])]) == Cost(f) + 1
  {
    hide Top, Bottom, Cost;
    AddColumn(f, Del(ref[i - 1]));
    assert ref[..i] == ref[..i - 1] + [ref[i - 1]];
  }

  lemma {:induction false} AddIns<W>(f: Alignment<W>, ref: seq<W>, hyp: seq<W>, i: nat, j: nat)
    requires i <= |ref| && 0 < j <= |hyp| && Aligns(f, ref[..i], hyp[..j - 1])
    ensures Aligns(f + [Ins(hyp[j - 1])], ref[..i], hyp[..j]) && Cost(f + [Ins(hyp[j - 1])]) == Cost(f) + 1
  {
    hide Top, Bottom, Cost;
    AddColumn(f, Ins(hyp[j - 1]));
    assert hyp[..j] == hyp[..j - 1] + [hyp[j - 1]];
  }

  lemma {:induction false} Nothing<W>()
    ensures Top<W>([]) == [] && Bottom<W>([]) == [] && Cost<W>([]) == 0 && Matches<W>([]) == []
  {
  }

  lemma {:induction false} AddColumn<W>(f: Alignment<W>, c: Column<W>)
    ensures Top(f + [c]) == Top(f) + (if c.Ins? then [] else [c.r])
    ensures Bottom(f + [c]) == Bottom(f) + (if c.Del? then [] else [c.h])
    ensures Cost(f + [c]) == Cost(f) + (if c.Both? && c.r == c.h then 0 else 1)
    ensures Matches(f + [c]) == Matches(f) + (if c.Both? && c.r == c.h then [(|Top(f)|, |Bottom(f)|)] else [])
  {
    assert (f + [c])[..|f + [c]| - 1] == f;
  }

  /** What the walk appends on the step back from `(i, j)`. */
  lemma {:induction false} ChosenMatches<W>(ref: seq<W>, hyp: seq<W>, i: nat, j: nat)
    requires i <= |ref| && j <= |hyp| && (i > 0 || j > 0)
    ensures Matches(Chosen(ref, hyp, i, j)) ==
            match Back(ref, hyp, i, j)
            case 0 => Matches(Chosen(ref, hyp, i - 1, j - 1)) + if ref[i - 1] == hyp[j - 1] then [(i - 1, j - 1)]
              else []
            case 1 => Matches(Chosen(ref, hyp, i - 1, j))
            case _ => Matches(Chosen(ref, hyp, i, j - 1))
  {
    hide Top, Bottom, Cost, Matches;
    match Back(ref, hyp, i, j)
    case 0 =>
      AddColumn(Chosen(ref, hyp, i - 1, j - 1), Both(ref[i - 1], hyp[j - 1]));
      ChosenAttains(ref, hyp, i - 1, j - 1);
    case 1 =>
      AddColumn(Chosen(ref, hyp, i - 1, j), Del(ref[i - 1]));
    case _ =>
      AddColumn(Chosen(ref, hyp, i, j - 1), Ins(hyp[j - 1]));
  }

  /** Matched pairs point at equal words and climb strictly in both coordinates, in every alignment. */
  lemma {:induction false} MatchesClimb<W>(a: Alignment<W>)
    ensures forall p | p in Matches(a) :: p.0 < |Top(a)| && p.1 < |Bottom(a)| && Top(a)[p.0] == Bottom(a)[p.1]
    ensures forall x, y | 0 <= x < y < |Matches(a)| ::
              Matches(a)[x].0 < Matches(a)[y].0 && Matches(a)[x].1 < Matches(a)[y].1
  {
    if a != [] {
      var f := a[..|a| - 1];
      MatchesClimb(f);
      assert forall x | 0 <= x < |Matches(f)| :: Matches(f)[x] in Matches(f);
    }
  }

  /** The rule for ties: the last column of every start of `a` is the first choice that costs no more. */
  ghost predicate FirstChoice<W(!new)>(a: Alignment<W>) {
    forall n, b: Alignment<W> | 0 < n <= |a| && b != [] && SameWordsNoDearer(b, a[..n]) ::
      (b[|b| - 1].Both? ==> a[n - 1].Both?) && (b[|b| - 1].Del? ==> !a[n - 1].Ins?)
  }

  /** `b` aligns the same words as `a`, at no higher cost. */
  ghost predicate SameWordsNoDearer<W>(b: Alignment<W>, a: Alignment<W>) {
    Top(b) == Top(a) && Bottom(b) == Bottom(a) && Cost(b) <= Cost(a)
  }

  /** Whole columns before deletions before insertions, as far as the cost allows. */
  lemma {:induction false} ChosenIsFirstChoice<W(!new)>(ref: seq<W>, hyp: seq<W>, i: nat, j: nat)
    requires i <= |ref| && j <= |hyp|
    ensures FirstChoice(Chosen(ref, hyp, i, j))
    decreases i + j
  {
    hide Chosen, Dist, Back, SameWordsNoDearer;
    StepBack(ref, hyp, i, j);
    var a := Chosen(ref, hyp, i, j);
    if a != [] {
      var f := a[..|a| - 1];
      if i > 0 && j > 0 && f == Chosen(ref, hyp, i - 1, j - 1) {
        ChosenIsFirstChoice(ref, hyp, i - 1, j - 1);
      } else if i > 0 && f == Chosen(ref, hyp, i - 1, j) {
        ChosenIsFirstChoice(ref, hyp, i - 1, j);
      } else {
        ChosenIsFirstChoice(ref, hyp, i, j - 1);
      }
      forall n, b: Alignment<W> | 0 < n <= |a| && b != [] && SameWordsNoDearer(b, a[..n])
        ensures (b[|b| - 1].Both? ==> a[n - 1].Both?) && (b[|b| - 1].Del? ==> !a[n - 1].Ins?)
      {
        if n < |a| {
          assert a[..n] == f[..n] && a[n - 1] == f[n - 1];
        } else {
          assert a[..n] == a;
          LastChoice(ref, hyp, i, j, b);
        }
      }
    }
  }

  lemma {:induction false} LastChoice<W>(ref: seq<W>, hyp: seq<W>, i: nat, j: nat, b: Alignment<W>)
    requires i <= |ref| && j <= |hyp| && b != [] && SameWordsNoDearer(b, Chosen(ref, hyp, i, j))
    ensures var a := Chosen(ref, hyp, i, j);
            a != [] && (b[|b| - 1].Both? ==> a[|a| - 1].Both?) && (b[|b| - 1].Del? ==> !a[|a| - 1].Ins?)
  {
    hide Chosen, Dist, Back, Cost, Top, Bottom;
    ChosenAttains(ref, hyp, i, j);
    var f, c := b[..|b| - 1], b[|b| - 1];
    assert b == f + [c];
    AddColumn(f, c);
    match c {
      case Both(r, h) =>
        LastWord(ref, i, Top(f), r);
        LastWord(hyp, j, Bottom(f), h);
        NoAlignmentIsCheaper(ref, hyp, f, i - 1, j - 1);
      case Del(r) =>
        LastWord(ref, i, Top(f), r);
        NoAlignmentIsCheaper(ref, hyp, f, i - 1, j);
      case Ins(h) =>
        LastWord(hyp, j, Bottom(f), h);
    }
    StepBack(ref, hyp, i, j);
    BackIsFirst(ref, hyp, i, j);
  }

  /** The way back recorded is the first of diagonal, up and left that attains the distance. */
  lemma {:induction false} BackIsFirst<W>(ref: seq<W>, hyp: seq<W>, i: nat, j: nat)
    requires i <= |ref| && j <= |hyp|
    ensures i > 0 && j > 0
            && Dist(ref, hyp, i - 1, j - 1) + (if ref[i - 1] == hyp[j - 1] then 0 else 1) <= Dist(ref, hyp, i, j) ==>
              Back(ref, hyp, i, j) == 0
    ensures i > 0 && Dist(ref, hyp, i - 1, j) + 1 <= Dist(ref, hyp, i, j) ==> Back(ref, hyp, i, j) <= 1
  {
  }

  function Reversed<T>(s: seq<T>): seq<T> {
    if s == [] then [] else [s[|s| - 1]] + Reversed(s[..|s| - 1])
  }

  lemma {:induction false} ReversedPush<T>(s: seq<T>, x: T)
    ensures Reversed(s + [x]) == [x] + Reversed(s)
  {
    assert (s + [x])[..|s|] == s;
  }

  lemma {:induction false} NoPairs()
    ensures Reversed<(nat, nat)>([]) == []
  {
  }

  /** The recorded way back stays inside the table. */
  lemma {:induction false} BackMoves<W>(ref: seq<W>, hyp: seq<W>, i: nat, j: nat)
    requires i <= |ref| && j <= |hyp| && (i > 0 || j > 0)
    ensures var b := Back(ref, hyp, i, j);
            (b == 0 ==> i > 0 && j > 0) && (b == 1 ==> i > 0) && (b != 0 && b != 1 ==> j > 0)
  {
    hide Dist;
  }

  // ----- The code

  method Align<W(==, !new)>(ref: seq<W>, hyp: seq<W>) returns (errors: nat, pairs: seq<(nat, nat)>)
    ensures exists a: Alignment<W> ::
              Aligns(a, ref, hyp) && Cost(a) == errors && Matches(a) == pairs && FirstChoice(a)
    ensures forall a: Alignment<W> :: Aligns(a, ref, hyp) ==> errors <= Cost(a)
    ensures forall p | p in pairs :: p.0 < |ref| && p.1 < |hyp| && ref[p.0] == hyp[p.1]
    ensures forall x, y | 0 <= x < y < |pairs| :: pairs[x].0 < pairs[y].0 && pairs[x].1 < pairs[y].1
  {
    var back;
    errors, back := FillTable(ref, hyp);
    pairs := Trace(ref, hyp, back);
    assert ref[..|ref|] == ref && hyp[..|hyp|] == hyp;
    ghost var a := Chosen(ref, hyp, |ref|, |hyp|);
    ChosenAttains(ref, hyp, |ref|, |hyp|);
    MatchesClimb(a);
    ChosenIsFirstChoice(ref, hyp, |ref|, |hyp|);
    hide FirstChoice;
    forall c: Alignment<W> | Aligns(c, ref, hyp)
      ensures errors <= Cost(c)
    {
      NoAlignmentIsCheaper(ref, hyp, c, |ref|, |hyp|);
    }
  }

  /** The whole table of ways back, and the distance in its last cell. */
  method FillTable<W(==)>(ref: seq<W>, hyp: seq<W>) returns (errors: nat, back: seq<seq<nat>>)
    ensures errors == Dist(ref, hyp, |ref|, |hyp|)
    ensures |back| == |ref| + 1 && forall k | 0 <= k <= |ref| :: |back[k]| == |hyp| + 1
    ensures forall k, j | 0 <= k <= |ref| && 0 <= j <= |hyp| :: back[k][j] == Back(ref, hyp, k, j)
  {
    hide Dist, Back;
    var m := |hyp|;
    var prev := seq(m + 1, j requires 0 <= j => j as nat);
    back := [seq(m + 1, j => if j == 0 then 0 else 2)];
    assert forall j | 0 <= j <= m :: Dist(ref, hyp, 0, j) == j && Back(ref, hyp, 0, j) == (if j == 0 then 0 else 2) by {
      FirstRow(ref, hyp);
    }
    for i := 1 to |ref| + 1
      invariant |back| == i && |prev| == m + 1
      invariant forall j | 0 <= j <= m :: prev[j] == Dist(ref, hyp, i - 1, j)
      invariant forall k | 0 <= k < i :: |back[k]| == m + 1
      invariant forall k, j | 0 <= k < i && 0 <= j <= m :: back[k][j] == Back(ref, hyp, k, j)
    {
      var cur, bi := FillRow(ref, hyp, i, prev);
      prev := cur;
      back := back + [bi];
    }
    errors := prev[m];
  }

  lemma {:induction false} FirstColumn<W>(ref: seq<W>, hyp: seq<W>, i: nat)
    requires 1 <= i <= |ref|
    ensures Dist(ref, hyp, i, 0) == i && Back(ref, hyp, i, 0) == 1
  {
  }

  lemma {:induction false} CellOf<W>(ref: seq<W>, hyp: seq<W>, i: nat, j: nat)
    requires 1 <= i <= |ref| && 1 <= j <= |hyp|
    ensures var d := Dist(ref, hyp, i - 1, j - 1) + if ref[i - 1] != hyp[j - 1] then 1 else 0;
            var u, l := Dist(ref, hyp, i - 1, j) + 1, Dist(ref, hyp, i, j - 1) + 1;
            && Dist(ref, hyp, i, j) == Min3(d, u, l)
            && Back(ref, hyp, i, j) == if d <= u && d <= l then 0 else if u <= l then 1 else 2
  {
    BackIs(ref, hyp, i, j);
    hide Back;
  }

  lemma {:induction false} BackIs<W>(ref: seq<W>, hyp: seq<W>, i: nat, j: nat)
    requires 1 <= i <= |ref| && 1 <= j <= |hyp|
    ensures var d := Dist(ref, hyp, i - 1, j - 1) + if ref[i - 1] != hyp[j - 1] then 1 else 0;
            var u, l := Dist(ref, hyp, i - 1, j) + 1, Dist(ref, hyp, i, j - 1) + 1;
            Back(ref, hyp, i, j) == if d <= u && d <= l then 0 else if u <= l then 1 else 2
  {
    hide Dist;
  }

  lemma {:induction false} FirstRow<W>(ref: seq<W>, hyp: seq<W>)
    ensures forall j | 0 <= j <= |hyp| :: Dist(ref, hyp, 0, j) == j && Back(ref, hyp, 0, j) == (if j == 0 then 0 else 2)
  {
  }

  /** One row of the table from the row above it. */
  method FillRow<W(==)>(ref: seq<W>, hyp: seq<W>, i: nat, prev: seq<nat>) returns (cur: seq<nat>, bi: seq<nat>)
    requires 1 <= i <= |ref| && |prev| == |hyp| + 1
    requires forall j | 0 <= j <= |hyp| :: prev[j] == Dist(ref, hyp, i - 1, j)
    ensures |cur| == |bi| == |hyp| + 1
    ensures forall j | 0 <= j <= |hyp| :: cur[j] == Dist(ref, hyp, i, j) && bi[j] == Back(ref, hyp, i, j)
  {
    var m := |hyp|;
    FirstColumn(ref, hyp, i);
    hide Dist, Back;
    cur := [i] + seq(m, _ => 0);
    bi := [1] + seq(m, _ => 0);
    for j := 1 to m + 1
      invariant |cur| == |bi| == m + 1
      invariant forall k | 0 <= k < j :: cur[k] == Dist(ref, hyp, i, k) && bi[k] == Back(ref, hyp, i, k)
      invariant forall k | j <= k <= m :: bi[k] == 0
    {
      CellOf(ref, hyp, i, j);
      var d := prev[j - 1] + if ref[i - 1] != hyp[j - 1] then 1 else 0;
      var u := prev[j] + 1;
      var l := cur[j - 1] + 1;
      if d <= u && d <= l {
        cur := cur[j := d];
      } else if u <= l {
        cur := cur[j := u];
        bi := bi[j := 1];
      } else {
        cur := cur[j := l];
        bi := bi[j := 2];
      }
    }
  }

  /** Walks the recorded way back from the last cell, collecting the matched pairs. */
  method Trace<W(==)>(ref: seq<W>, hyp: seq<W>, back: seq<seq<nat>>) returns (pairs: seq<(nat, nat)>)
    requires |back| == |ref| + 1 && forall k | 0 <= k <= |ref| :: |back[k]| == |hyp| + 1
    requires forall k, j | 0 <= k <= |ref| && 0 <= j <= |hyp| :: back[k][j] == Back(ref, hyp, k, j)
    ensures pairs == Matches(Chosen(ref, hyp, |ref|, |hyp|))
  {
    hide Dist, Chosen, Matches, Back, Reversed;
    pairs := [];
    NoPairs();
    var i: nat, j: nat := |ref|, |hyp|;
    while i > 0 || j > 0
      invariant i <= |ref| && j <= |hyp|
      invariant Matches(Chosen(ref, hyp, |ref|, |hyp|)) == Matches(Chosen(ref, hyp, i, j)) + Reversed(pairs)
      decreases i + j
    {
      BackMoves(ref, hyp, i, j);
      ChosenMatches(ref, hyp, i, j);
      var b := back[i][j];
      if b == 0 {
        if ref[i - 1] == hyp[j - 1] {
          ReversedPush(pairs, (i - 1, j - 1));
          pairs := pairs + [(i - 1, j - 1)];
        }
        i, j := i - 1, j - 1;
      } else if b == 1 {
        i := i - 1;
      } else {
        j := j - 1;
      }
    }
    assert Matches(Chosen(ref, hyp, 0, 0)) == [] by {
      NothingChosen(ref, hyp);
    }
    pairs := Reversed(pairs);
  }

  lemma {:induction false} NothingChosen<W>(ref: seq<W>, hyp: seq<W>)
    ensures Matches(Chosen(ref, hyp, 0, 0)) == []
  {
  }
}
