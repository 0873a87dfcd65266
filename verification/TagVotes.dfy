/** Votes on the tags of an entity and the aggregate shown for them. */
module TagVotes {
  import opened Options

  datatype Score = Veto | Low | Medium | High

  function Points(s: Score): int {
    match s case Veto => -3 case Low => 1 case Medium => 2 case High => 3
  }

  datatype Vote = Vote(entity: int, tag: int, user: int, score: Score)

  predicate SameKey(a: Vote, b: Vote) { a.entity == b.entity && a.tag == b.tag && a.user == b.user }

  /** The table with its unique key. */
  ghost predicate Unique(rows: set<Vote>) {
    forall a, b :: a in rows && b in rows && SameKey(a, b) ==> a == b
  }

  /** Insert, or on a conflict of keys update. */
  function Upserted(rows: set<Vote>, v: Vote): set<Vote> {
    (set r | r in rows && !SameKey(r, v)) + {v}
  }

  function Deleted(rows: set<Vote>, entity: int, tag: int, user: int): set<Vote> {
    set r | r in rows && !(r.entity == entity && r.tag == tag && r.user == user)
  }

  datatype Answer = Done | EntityNotFound | TagNotFound

  class VoteTable {
    var rows: set<Vote>
    const entities: set<int>
    const tags: set<int>

    constructor (entities: set<int>, tags: set<int>)
      ensures rows == {} && this.entities == entities && this.tags == tags
    {
      rows := {};
      this.entities := entities;
      this.tags := tags;
    }

    method Upsert(v: Vote) returns (answer: Answer)
      requires Unique(rows)
      modifies this`rows
      ensures Unique(rows)
      ensures answer == if v.entity !in entities then EntityNotFound else if v.tag !in tags then TagNotFound else Done
      ensures rows == if answer.Done? then Upserted(old(rows), v) else old(rows)
    {
      if v.entity !in entities {
        return EntityNotFound;
      }
      if v.tag !in tags {
        return TagNotFound;
      }
      if r :| r in rows && SameKey(r, v) {
        rows := rows - {r} + {v};
      } else {
        rows := rows + {v};
      }
      answer := Done;
    }

    method Delete(entity: int, tag: int, user: int)
      requires Unique(rows)
      modifies this`rows
      ensures Unique(rows)
      ensures rows == Deleted(old(rows), entity, tag, user)
    {
      rows := set r | r in rows && !(r.entity == entity && r.tag == tag && r.user == user);
    }
  }

  datatype Op = Put(vote: Vote) | Drop(entity: int, tag: int, user: int)

  function Run(rows: set<Vote>, ops: seq<Op>): set<Vote> {
    if ops == [] then rows
    else
      var before := Run(rows, ops[..|ops| - 1]);
      match ops[|ops| - 1]
      case Put(v) => Upserted(before, v)
      case Drop(e, t, u) => Deleted(before, e, t, u)
  }

  predicate Touches(op: Op, v: Vote) {
    match op
    case Put(w) => SameKey(v, w)
    case Drop(e, t, u) => v.entity == e && v.tag == t && v.user == u
  }

  /** The last operation on the vote's key puts that vote. */
  ghost predicate LastPut(ops: seq<Op>, v: Vote) {
    exists i :: 0 <= i < |ops| && ops[i] == Put(v) && forall j :: i < j < |ops| ==> !Touches(ops[j], v)
  }

  ghost predicate Untouched(ops: seq<Op>, v: Vote) {
    forall i :: 0 <= i < |ops| ==> !Touches(ops[i], v)
  }

  /** After any run the votes are those put last, and those nobody touched. */
  lemma {:induction false} LastOpWins(rows: set<Vote>, ops: seq<Op>, v: Vote)
    ensures v in Run(rows, ops) <==> LastPut(ops, v) || (Untouched(ops, v) && v in rows)
  {
    if ops != [] {
      var n := |ops| - 1;
      var front, op := ops[..n], ops[n];
      LastOpWins(rows, front, v);
      LastOf(front, op, v);
      assert ops == front + [op];
    }
  }

  lemma LastOf(front: seq<Op>, op: Op, v: Vote)
    ensures LastPut(front + [op], v) <==> op == Put(v) || (LastPut(front, v) && !Touches(op, v))
    ensures Untouched(front + [op], v) <==> Untouched(front, v) && !Touches(op, v)
  {
    var ops, n := front + [op], |front|;
    assert ops[n] == op && forall j :: 0 <= j < n ==> ops[j] == front[j];
    if op == Put(v) {
      assert ops[n] == Put(v);
    }
    if LastPut(front, v) && !Touches(op, v) {
      var i :| 0 <= i < n && front[i] == Put(v) && forall j :: i < j < n ==> !Touches(front[j], v);
      assert ops[i] == Put(v);
    }
  }

  /** After any run each user has at most one vote on a tag of an entity. */
  lemma {:induction false} OneVoteEach(rows: set<Vote>, ops: seq<Op>)
    requires Unique(rows)
    ensures Unique(Run(rows, ops))
  {
    if ops != [] {
      OneVoteEach(rows, ops[..|ops| - 1]);
    }
  }

  // ---------- aggregates over a group of rows ----------

  function Votes(rows: set<Vote>, entity: int, tag: int): set<Vote> {
    set r | r in rows && r.entity == entity && r.tag == tag
  }

  /** A sum over rows in whatever order the database takes them. */
  ghost function Sum(f: Vote -> int, group: set<Vote>): int {
    if group == {} then 0
    else
      var v :| v in group;
      f(v) + Sum(f, group - {v})
  }

  lemma {:induction false} SumTake(f: Vote -> int, group: set<Vote>, v: Vote)
    requires v in group
    ensures Sum(f, group) == f(v) + Sum(f, group - {v})
    decreases group
  {
    var w :| w in group && Sum(f, group) == f(w) + Sum(f, group - {w});
    if v != w {
      SumTake(f, group - {w}, v);
      SumTake(f, group - {v}, w);
      assert group - {w} - {v} == group - {v} - {w};
    }
  }

  function Score1(v: Vote): int { Points(v.score) }
  function Positive1(v: Vote): int { if Points(v.score) > 0 then 1 else 0 }
  function Veto1(v: Vote): int { if v.score.Veto? then 1 else 0 }

  ghost function ScoreSum(group: set<Vote>): int { Sum(Score1, group) }
  ghost function Positives(group: set<Vote>): int { Sum(Positive1, group) }
  ghost function Vetoes(group: set<Vote>): int { Sum(Veto1, group) }

  /** A tag is listed only with a positive vote. */
  ghost predicate Listed(group: set<Vote>) { Positives(group) > 0 }

  ghost function Relevance(group: set<Vote>): real
    requires Listed(group)
  {
    ScoreSum(group) as real / Positives(group) as real
  }

  lemma {:induction false} Counts(group: set<Vote>)
    ensures Positives(group) >= 0 && Vetoes(group) >= 0
    ensures Positives(group) + Vetoes(group) == |group|
    ensures Positives(group) - 3 * Vetoes(group) <= ScoreSum(group) <= 3 * Positives(group) - 3 * Vetoes(group)
    decreases group
  {
    if group != {} {
      var v := Element(group);
      SumTake(Score1, group, v);
      SumTake(Positive1, group, v);
      SumTake(Veto1, group, v);
      Counts(group - {v});
    }
  }

  lemma DivideBounds(s: int, p: int, low: int, high: int)
    requires p > 0 && low <= s <= high
    ensures low as real / p as real <= s as real / p as real <= high as real / p as real
  {}

  /** With P positive votes and V vetoes the relevance lies between 1 - 3V/P and 3 - 3V/P. */
  lemma RelevanceBounds(group: set<Vote>)
    requires Listed(group)
    ensures var p, v := Positives(group) as real, Vetoes(group) as real;
            1.0 - 3.0 * v / p <= Relevance(group) <= 3.0 - 3.0 * v / p
  {
    Counts(group);
    var p, v := Positives(group), Vetoes(group);
    DivideBounds(ScoreSum(group), p, p - 3 * v, 3 * p - 3 * v);
    var pr, vr := p as real, v as real;
    assert (p - 3 * v) as real == pr - 3.0 * vr;
    assert (3 * p - 3 * v) as real == 3.0 * pr - 3.0 * vr;
    Fraction(pr, vr);
  }

  lemma Cancel(a: real, b: real, p: real)
    requires p > 0.0 && a * p == b * p
    ensures a == b
  {}

  lemma Fraction(p: real, v: real)
    requires p > 0.0
    ensures (p - 3.0 * v) / p == 1.0 - 3.0 * v / p
    ensures (3.0 * p - 3.0 * v) / p == 3.0 - 3.0 * v / p
  {
    var q := 3.0 * v / p;
    assert q * p == 3.0 * v;
    assert (1.0 - q) * p == p - q * p && (3.0 - q) * p == 3.0 * p - q * p;
    Cancel((p - 3.0 * v) / p, 1.0 - q, p);
    Cancel((3.0 * p - 3.0 * v) / p, 3.0 - q, p);
  }

  lemma CrossMultiply(a: int, p: int, b: int, q: int)
    requires p > 0 && q > 0 && a * q <= b * p
    ensures a as real / p as real <= b as real / q as real
  {
    var x, y, pr, qr := a as real, b as real, p as real, q as real;
    assert (a * q) as real == x * qr && (b * p) as real == y * pr;
    assert x * qr <= y * pr;
    RealCross(x, pr, y, qr);
  }

  lemma Scale(a: real, b: real, k: real)
    requires a > b && k > 0.0
    ensures a * k > b * k
  {}

  lemma RealCross(x: real, p: real, y: real, q: real)
    requires p > 0.0 && q > 0.0 && x * q <= y * p
    ensures x / p <= y / q
  {
    var u, w := x / p, y / q;
    assert u * p == x && w * q == y;
    assert u * (p * q) == x * q && w * (p * q) == y * p;
    assert p * q > 0.0;
    if u > w {
      Scale(u, w, p * q);
    }
  }

  lemma TimesDivided(x: real, p: real)
    requires p != 0.0
    ensures x / p * p == x
  {}

  /** What raising a score does to the two numbers the relevance is made of. */
  lemma RaisedNumbers(rows: set<Vote>, v: Vote, score: Score)
    requires Unique(rows) && v in rows
    ensures var group := Votes(rows, v.entity, v.tag);
            var w := v.(score := score);
            var after := Votes(Upserted(rows, w), v.entity, v.tag);
            && ScoreSum(after) == ScoreSum(group) + Score1(w) - Score1(v)
            && Positives(after) == Positives(group) + Positive1(w) - Positive1(v)
  {
    var group := Votes(rows, v.entity, v.tag);
    var w := v.(score := score);
    var after := Votes(Upserted(rows, w), v.entity, v.tag);
    var others := group - {v};
    assert w !in others && after == others + {w};
    assert after - {w} == others;
    SumTake(Score1, group, v);
    SumTake(Positive1, group, v);
    SumTake(Score1, after, w);
    SumTake(Positive1, after, w);
  }

  lemma ScaleInt(a: int, b: int, p: int)
    requires a <= b && p >= 0
    ensures a * p <= b * p
  {
  }

  lemma {:induction false} RaisedRatio(s: int, p: int, s': int, p': int)
    requires p > 0 && s <= 3 * p
    requires (p' == p && s' >= s) || (p' == p + 1 && s' >= s + 4)
    ensures s * p' <= s' * p
  {
    if p' == p + 1 {
      assert s * p' == s * p + s;
      ScaleInt(s + 4, s', p);
    } else {
      ScaleInt(s, s', p);
    }
  }

  /** The order of the scores: veto, low, medium, high. */
  predicate Above(a: Score, b: Score) {
    match b
    case Veto => !a.Veto?
    case Low => a.Medium? || a.High?
    case Medium => a.High?
    case High => false
  }

  /** Raising one voter's score never hides a tag and never lowers its relevance. */
  lemma RaisingHelps(rows: set<Vote>, v: Vote, score: Score)
    requires Unique(rows) && v in rows && Above(score, v.score)
    requires Listed(Votes(rows, v.entity, v.tag))
    ensures var after := Votes(Upserted(rows, v.(score := score)), v.entity, v.tag);
            Listed(after) && Relevance(after) >= Relevance(Votes(rows, v.entity, v.tag))
  {
    hide Votes, Upserted, ScoreSum, Positives, Vetoes;
    var group := Votes(rows, v.entity, v.tag);
    var after := Votes(Upserted(rows, v.(score := score)), v.entity, v.tag);
    Counts(group);
    RaisedNumbers(rows, v, score);
    RaisedRatio(ScoreSum(group), Positives(group), ScoreSum(after), Positives(after));
    CrossMultiply(ScoreSum(group), Positives(group), ScoreSum(after), Positives(after));
  }

  // ---------- the aggregate in terms of the four scores ----------

  function Of(group: set<Vote>, score: Score): set<Vote> { set r | r in group && r.score == score }

  lemma OfTake(group: set<Vote>, v: Vote, score: Score)
    requires v in group
    ensures |Of(group, score)| == |Of(group - {v}, score)| + (if v.score == score then 1 else 0)
  {
    if v.score == score {
      assert Of(group, score) == Of(group - {v}, score) + {v};
    } else {
      assert Of(group, score) == Of(group - {v}, score);
    }
  }

  /** A veto counts minus three, the others one, two and three; vetoes are not positive. */
  lemma {:induction false} ByScore(group: set<Vote>)
    ensures ScoreSum(group)
         == |Of(group, Low)| + 2 * |Of(group, Medium)| + 3 * |Of(group, High)| - 3 * |Of(group, Veto)|
    ensures Positives(group) == |Of(group, Low)| + |Of(group, Medium)| + |Of(group, High)|
    ensures |group| == Positives(group) + |Of(group, Veto)|
    decreases group
  {
    if group == {} {
      assert forall s :: Of(group, s) == {};
    } else {
      var v := Element(group);
      hide Of;
      SumTake(Score1, group, v);
      SumTake(Positive1, group, v);
      forall s ensures |Of(group, s)| == |Of(group - {v}, s)| + (if v.score == s then 1 else 0) {
        OfTake(group, v, s);
      }
      ByScore(group - {v});
    }
  }

  /** A tag is listed exactly when some vote on it is no veto. */
  lemma ListedIff(group: set<Vote>)
    ensures Listed(group) <==> exists r :: r in group && r.score != Veto
  {
    hide Of, Positives;
    ByScore(group);
    NoneOf(group, Low);
    NoneOf(group, Medium);
    NoneOf(group, High);
    if r :| r in group && r.score != Veto {
      assert r.score == Low || r.score == Medium || r.score == High;
    }
  }

  lemma Quotient(s: int, p: int, k: int)
    requires p > 0
    ensures s as real / p as real == k as real <==> s == k * p
  {
    var q, pr := s as real / p as real, p as real;
    assert q * pr == s as real;
    assert (k * p) as real == k as real * pr;
    if s == k * p {
      Cancel(q, k as real, pr);
    }
  }

  lemma NoneOf(group: set<Vote>, score: Score)
    ensures |Of(group, score)| == 0 <==> forall r :: r in group ==> r.score != score
  {
    if r :| r in group && r.score == score {
      assert r in Of(group, score);
    }
  }

  /** The relevance is 3 exactly when every vote is high. It is 1 exactly when mediums and
      highs make up for the vetoes; so with no veto exactly when every vote is low. */
  lemma RelevanceValues(group: set<Vote>)
    requires Listed(group)
    ensures Relevance(group) == 3.0 <==> forall r :: r in group ==> r.score == High
    ensures Relevance(group) == 1.0 <==> |Of(group, Medium)| + 2 * |Of(group, High)| == 3 * |Of(group, Veto)|
    ensures (forall r :: r in group ==> r.score != Veto) ==>
              (Relevance(group) == 1.0 <==> forall r :: r in group ==> r.score == Low)
  {
    hide Of, ScoreSum;
    ByScore(group);
    Quotient(ScoreSum(group), Positives(group), 3);
    Quotient(ScoreSum(group), Positives(group), 1);
    NoneOf(group, Veto);
    NoneOf(group, Low);
    NoneOf(group, Medium);
    NoneOf(group, High);
  }

  /** Three mediums and a veto also make a relevance of 1. */
  lemma MediumsAndVeto(entity: int, tag: int)
    ensures var group := {Vote(entity, tag, 1, Medium), Vote(entity, tag, 2, Medium), Vote(entity, tag, 3, Medium),
                          Vote(entity, tag, 4, Veto)};
            Listed(group) && Relevance(group) == 1.0
  {
    var a, b, c, d := Vote(entity, tag, 1, Medium), Vote(entity, tag, 2, Medium), Vote(entity, tag, 3, Medium),
      Vote(entity, tag, 4, Veto);
    var group := {a, b, c, d};
    assert Of(group, Medium) == {a, b, c} && Of(group, Veto) == {d};
    assert Of(group, Low) == {} && Of(group, High) == {};
    ByScore(group);
    RelevanceValues(group);
  }

  // ---------- the votes listed with an aggregate ----------

  function OfTag(rows: seq<Vote>, tag: int): seq<Vote> {
    if rows == [] then []
    else
      var rest := OfTag(rows[..|rows| - 1], tag);
      var r := rows[|rows| - 1];
      if r.tag == tag then rest + [r] else rest
  }

  /** Grouping the queried rows by tag, in the order they come. */
  method LoadTagVotes(rows: seq<Vote>) returns (votes: map<int, seq<Vote>>)
    ensures forall t :: (if t in votes then votes[t] else []) == OfTag(rows, t)
  {
    votes := map[];
    for i := 0 to |rows|
      invariant forall t :: (if t in votes then votes[t] else []) == OfTag(rows[..i], t)
    {
      var row := rows[i];
      assert rows[..i + 1][..i] == rows[..i];
      var before := if row.tag in votes then votes[row.tag] else [];
      votes := votes[row.tag := before + [row]];
    }
    assert rows[..|rows|] == rows;
  }

  /** The grouping keeps the order, and each row of the tag once. */
  lemma {:induction false} OfTagConcat(a: seq<Vote>, b: seq<Vote>, tag: int)
    ensures OfTag(a + b, tag) == OfTag(a, tag) + OfTag(b, tag)
    ensures forall r: Vote :: OfTag([r], tag) == if r.tag == tag then [r] else []
  {
    forall r: Vote ensures OfTag([r], tag) == if r.tag == tag then [r] else [] {
      assert [r][..0] == [];
    }
    if b == [] {
      assert a + b == a;
    } else {
      assert (a + b)[..|a + b| - 1] == a + b[..|b| - 1];
      OfTagConcat(a, b[..|b| - 1], tag);
    }
  }

  function ListSum(list: seq<Vote>): int {
    if list == [] then 0 else ListSum(list[..|list| - 1]) + Points(list[|list| - 1].score)
  }

  /** `list` names each row of `group` once. */
  ghost predicate Lists(list: seq<Vote>, group: set<Vote>) {
    && (forall r :: r in list <==> r in group)
    && (forall i, j :: 0 <= i < j < |list| ==> list[i] != list[j])
  }

  lemma {:induction false} OfTagLists(rows: seq<Vote>, group: set<Vote>, tag: int)
    requires Lists(rows, group)
    ensures Lists(OfTag(rows, tag), set r | r in group && r.tag == tag)
    decreases |rows|
  {
    if rows != [] {
      var n := |rows| - 1;
      assert rows == rows[..n] + [rows[n]];
      assert rows[n] in rows && rows[n] !in rows[..n];
      OfTagLists(rows[..n], group - {rows[n]}, tag);
      var rest := OfTag(rows[..n], tag);
      assert rows[n] !in rest;
      assert forall i :: 0 <= i < |rest| ==> rest[i] in rest;
    }
  }

  lemma {:induction false} ListSumIsSum(list: seq<Vote>, group: set<Vote>)
    requires Lists(list, group)
    ensures ListSum(list) == ScoreSum(group) && |list| == |group|
    decreases |list|
  {
    if list == [] {
      assert group == {};
    } else {
      var n := |list| - 1;
      assert list == list[..n] + [list[n]];
      assert list[n] in list && list[n] !in list[..n];
      SumTake(Score1, group, list[n]);
      ListSumIsSum(list[..n], group - {list[n]});
    }
  }

  /** For a listed tag, in whatever order its entity's rows come: the count is the number
      of votes listed with it, and relevance times positive votes is the sum of their scores. */
  lemma AggregateMatchesVotes(rows: set<Vote>, entity: int, tag: int, listing: seq<Vote>)
    requires Lists(listing, set r | r in rows && r.entity == entity)
    requires Listed(Votes(rows, entity, tag))
    ensures var group := Votes(rows, entity, tag);
            var votes := OfTag(listing, tag);
            && |votes| == |group|
            && Relevance(group) * Positives(group) as real == ListSum(votes) as real
  {
    hide ScoreSum, Positives, ListSum, OfTag, Lists;
    var all := set r | r in rows && r.entity == entity;
    var group := Votes(rows, entity, tag);
    OfTagLists(listing, all, tag);
    assert group == set r | r in all && r.tag == tag;
    ListSumIsSum(OfTag(listing, tag), group);
    TimesDivided(ScoreSum(group) as real, Positives(group) as real);
  }
}
