/** Which answers are attributed to the name asked for: how long a question is remembered. */
module DnsAttribution {
  import opened Options
  import opened OrderedMaps
  import opened Sets
  import opened DnsLog

  type Questions = OMap<string, string>

  // ---- Setting a key ----

  lemma PutNext(m: Questions, k: string, v: string)
    requires m != [] && m[0].0 != k
    ensures Put(m, k, v) == [m[0]] + Put(m[1..], k, v)
  {
    hide Keys, Find;
  }

  lemma DistinctTail(m: Questions, i: nat)
    requires Distinct(m) && 0 < i < |m|
    ensures Distinct(m[1..]) && m[1..][i - 1] == m[i] && m[0].0 != m[i].0
  {
  }

  lemma {:induction false} PutInPlace(m: Questions, k: string, v: string, i: nat)
    requires Distinct(m) && i < |m| && m[i].0 == k
    ensures Put(m, k, v) == m[i := (k, v)]
  {
    hide Put, Keys, Find, Distinct;
    if i == 0 {
      PutFirst(m, k, v);
    } else {
      DistinctTail(m, i);
      PutNext(m, k, v);
      PutInPlace(m[1..], k, v, i - 1);
      assert m[i := (k, v)] == [m[0]] + m[1..][i - 1 := (k, v)];
    }
  }

  lemma PutFirst(m: Questions, k: string, v: string)
    requires m != [] && m[0].0 == k
    ensures Put(m, k, v) == m[0 := (k, v)]
  {
    hide Keys, Find;
  }

  lemma AbsentInTail(m: Questions, k: string)
    requires m != [] && k !in Keys(m)
    ensures m[0].0 != k && k !in Keys(m[1..])
  {
    hide Put, Find;
    TailKeys(m);
    assert m[0].0 in Keys(m);
  }

  lemma {:induction false} PutAtEnd(m: Questions, k: string, v: string)
    requires k !in Keys(m)
    ensures Put(m, k, v) == m + [(k, v)]
  {
    if m == [] {
      assert [(k, v)] == m + [(k, v)];
    } else {
      hide Put, Keys, Find;
      AbsentInTail(m, k);
      PutNext(m, k, v);
      PutAtEnd(m[1..], k, v);
      ConsOfAppend(m, (k, v));
    }
  }

  lemma AskAgain(m: Questions, s: string, n: string, i: nat)
    requires Distinct(m) && |m| <= MAX_QUERIES && i < |m| && m[i].0 == s
    ensures Ask(m, s, n) == m[i := (s, n)]
  {
    hide Put, Keys, Find;
    PutInPlace(m, s, n, i);
  }

  lemma AskNew(m: Questions, s: string, n: string)
    requires |m| <= MAX_QUERIES && s !in Keys(m)
    ensures Ask(m, s, n) == if |m| < MAX_QUERIES then m + [(s, n)] else (m + [(s, n)])[1..]
  {
    hide Put, Keys, Find;
    PutAtEnd(m, s, n);
  }

  lemma TailKeys(m: Questions)
    requires m != []
    ensures Keys(m[1..]) <= Keys(m)
  {
    forall k | k in Keys(m[1..])
      ensures k in Keys(m)
    {
      var i :| 0 <= i < |m| - 1 && m[1..][i].0 == k;
      assert m[i + 1].0 == k;
    }
  }

  lemma {:induction false} FindIs(m: Questions, i: nat)
    requires Distinct(m) && i < |m|
    ensures Find(m, m[i].0) == Some(m[i].1)
  {
    FindAt(m, i);
  }

  // ---- One more question ----

  /** The keys set after the one at `p`. */
  function Behind(m: Questions, p: nat): set<string> { set i | p < i < |m| :: m[i].0 }

  lemma {:induction false} BehindCounts(m: Questions, p: nat)
    requires Distinct(m) && p < |m|
    ensures |Behind(m, p)| == |m| - p - 1
    decreases |m|
  {
    if p == |m| - 1 {
      assert Behind(m, p) == {};
    } else {
      var before, last := m[..|m| - 1], m[|m| - 1];
      BehindCounts(before, p);
      assert Behind(m, p) == Behind(before, p) + {last.0};
      assert last.0 !in Behind(before, p);
    }
  }

  /** The question at `p` is still remembered, with everything set after it since. */
  ghost predicate Remembers(m: Questions, serial: string, name: string, p: nat) {
    Distinct(m) && |m| <= MAX_QUERIES && p < |m| && m[p] == (serial, name)
  }

  lemma KnownSerialAgain(m: Questions, serial: string, name: string, p: nat, s: string, n: string)
    requires Remembers(m, serial, name, p) && s in Keys(m) && s != serial
    ensures var m' := Ask(m, s, n);
            Remembers(m', serial, name, p) && |m'| == |m| && Keys(m') == Keys(m) && Behind(m', p) == Behind(m, p)
  {
    hide Ask, Put, Find;
    var i := WhereIn(m, s);
    AskAgain(m, s, n, i);
    RenamedInPlace(m, i, n);
    hide Keys, Behind;
  }

  ghost function WhereIn(m: Questions, s: string): (i: nat)
    requires s in Keys(m)
    ensures i < |m| && m[i].0 == s
  {
    var i :| 0 <= i < |m| && m[i].0 == s;
    i
  }

  /** Another name under the same serial moves nothing. */
  lemma RenamedInPlace(m: Questions, i: nat, n: string)
    requires i < |m|
    ensures var m' := m[i := (m[i].0, n)];
            |m'| == |m| && (forall j :: 0 <= j < |m| ==> m'[j].0 == m[j].0) && Keys(m') == Keys(m)
            && (forall p: nat :: Behind(m', p) == Behind(m, p)) && (Distinct(m) ==> Distinct(m'))
  {
    hide Ask, Put, Find;
    var m' := m[i := (m[i].0, n)];
    assert forall j :: 0 <= j < |m| ==> m'[j].0 == m[j].0;
    SameKeys(m, m');
    forall p: nat
      ensures Behind(m', p) == Behind(m, p)
    {
      SameBehind(m, m', p);
    }
  }

  lemma SameKeys(m: Questions, m': Questions)
    requires |m'| == |m| && forall j :: 0 <= j < |m| ==> m'[j].0 == m[j].0
    ensures Keys(m') == Keys(m) && (Distinct(m) ==> Distinct(m'))
  {
    forall k
      ensures k in Keys(m') <==> k in Keys(m)
    {
      if k in Keys(m) { assert m'[WhereIn(m, k)].0 == k; }
      if k in Keys(m') { assert m[WhereIn(m', k)].0 == k; }
    }
  }

  lemma SameBehind(m: Questions, m': Questions, p: nat)
    requires |m'| == |m| && forall j :: 0 <= j < |m| ==> m'[j].0 == m[j].0
    ensures Behind(m', p) == Behind(m, p)
  {
  }

  lemma AbsentFromAll(m: Questions, s: string)
    requires s !in Keys(m)
    ensures forall i :: 0 <= i < |m| ==> m[i].0 != s
  {
    forall i | 0 <= i < |m|
      ensures m[i].0 != s
    {
      assert m[i].0 in Keys(m);
    }
  }

  lemma AbsentFromKeys(m: Questions, s: string)
    requires forall i :: 0 <= i < |m| ==> m[i].0 != s
    ensures s !in Keys(m)
  {
  }

  lemma BehindMore(m: Questions, p: nat, s: string, n: string)
    requires p < |m|
    ensures Behind(m + [(s, n)], p) == Behind(m, p) + {s}
  {
    hide Keys, Put, Find;
    var more := m + [(s, n)];
    assert more[|m|].0 == s;
    forall k: string
      ensures k in Behind(more, p) <==> k in Behind(m, p) + {s}
    {
      if k in Behind(m, p) {
        var i :| p < i < |m| && m[i].0 == k;
        assert more[i].0 == k;
      }
    }
  }

  lemma BehindTail(m: Questions, p: nat)
    requires 0 < p < |m|
    ensures Behind(m[1..], p - 1) == Behind(m, p)
  {
    hide Keys, Put, Find;
    forall k: string
      ensures k in Behind(m[1..], p - 1) <==> k in Behind(m, p)
    {
      if k in Behind(m, p) {
        var i :| p < i < |m| && m[i].0 == k;
        assert m[1..][i - 1].0 == k;
      }
    }
  }

  lemma DistinctMore(m: Questions, s: string, n: string)
    requires Distinct(m) && s !in Keys(m)
    ensures Distinct(m + [(s, n)]) && Distinct((m + [(s, n)])[1..])
  {
    hide Put, Find;
    AbsentFromAll(m, s);
    var more := m + [(s, n)];
    assert forall j :: 0 <= j < |m| ==> more[j] == m[j];
    assert forall j :: 0 <= j < |m| ==> more[1..][j] == more[j + 1];
  }

  lemma AbsentMore(m: Questions, serial: string, s: string, n: string)
    requires serial !in Keys(m) && s != serial
    ensures serial !in Keys(m + [(s, n)])
  {
    hide Put, Find;
    AbsentFromAll(m, serial);
    var more := m + [(s, n)];
    assert forall j :: 0 <= j < |m| ==> more[j] == m[j];
    hide Keys;
    AbsentFromKeys(more, serial);
  }

  lemma DistinctHead(m: Questions)
    requires Distinct(m) && m != []
    ensures m[0].0 !in Keys(m[1..])
  {
    hide Put, Find;
    assert forall j :: 0 <= j < |m| - 1 ==> m[1..][j] == m[j + 1];
    AbsentFromKeys(m[1..], m[0].0);
  }

  lemma NewSerialFits(m: Questions, serial: string, name: string, p: nat, s: string, n: string)
    requires Remembers(m, serial, name, p) && s !in Keys(m) && |m| < MAX_QUERIES
    ensures var m' := Ask(m, s, n);
            Remembers(m', serial, name, p) && |m'| == |m| + 1 && Behind(m', p) == Behind(m, p) + {s}
  {
    AskNew(m, s, n);
    BehindMore(m, p, s, n);
    DistinctMore(m, s, n);
    hide Ask, Keys, Behind, Distinct;
  }

  lemma NewSerialEvicts(m: Questions, serial: string, name: string, p: nat, s: string, n: string)
    requires Remembers(m, serial, name, p) && s !in Keys(m) && |m| == MAX_QUERIES && s != serial
    ensures var m' := Ask(m, s, n);
            Distinct(m') && |m'| == MAX_QUERIES
            && if p == 0 then serial !in Keys(m')
               else Remembers(m', serial, name, p - 1) && Behind(m', p - 1) == Behind(m, p) + {s}
  {
    AskNew(m, s, n);
    DistinctMore(m, s, n);
    hide Ask, Keys, Behind, Distinct;
    var more := m + [(s, n)];
    if p == 0 {
      DistinctHead(more);
    } else {
      BehindMore(m, p, s, n);
      BehindTail(more, p);
    }
  }

  // ---- Any number of questions ----

  /** The questions after some lines. */
  function Asked(m: Questions, lines: seq<Line>): Questions {
    if lines == [] then m
    else
      var before, last := Asked(m, lines[..|lines| - 1]), lines[|lines| - 1];
      if last.Query? then Ask(before, last.serial, last.name) else before
  }

  /** How many of the lines ask under a serial that is not remembered then. */
  function Arrivals(m: Questions, lines: seq<Line>): nat {
    if lines == [] then 0
    else
      var before, last := Asked(m, lines[..|lines| - 1]), lines[|lines| - 1];
      Arrivals(m, lines[..|lines| - 1]) + if last.Query? && last.serial !in Keys(before) then 1 else 0
  }

  /** The serials the lines ask under. */
  function Serials(lines: seq<Line>): set<string> { set i | 0 <= i < |lines| && lines[i].Query? :: lines[i].serial }

  /** How many arrivals a question at this place survives. */
  function Room(m: Questions, p: nat): int { p + MAX_QUERIES - |m| }

  /** Where it is after some arrivals. */
  function PlaceAfter(m: Questions, p: nat, arrivals: nat): int {
    if |m| + arrivals <= MAX_QUERIES then p else p - (|m| + arrivals - MAX_QUERIES)
  }

  ghost predicate Follows(m: Questions, serial: string, name: string, p: nat, lines: seq<Line>) {
    var m', a := Asked(m, lines), Arrivals(m, lines);
    Distinct(m') && |m'| <= MAX_QUERIES
    && if a <= Room(m, p)
       then
         var q := PlaceAfter(m, p, a);
         0 <= q && Remembers(m', serial, name, q) && |m'| - q == |m| - p + a
         && Behind(m', q) <= Behind(m, p) + Serials(lines)
       else serial !in Keys(m')
  }

  lemma MoreSerials(lines: seq<Line>)
    requires lines != []
    ensures var before, last := lines[..|lines| - 1], lines[|lines| - 1];
            Serials(lines) == Serials(before) + (if last.Query? then {last.serial} else {})
  {
    var before, last := lines[..|lines| - 1], lines[|lines| - 1];
    forall s: string
      ensures s in Serials(lines) <==> s in Serials(before) + (if last.Query? then {last.serial} else {})
    {
      if s in Serials(lines) {
        var i :| 0 <= i < |lines| && lines[i].Query? && lines[i].serial == s;
        if i < |before| { assert before[i] == lines[i]; }
      }
      if s in Serials(before) {
        var i :| 0 <= i < |before| && before[i].Query? && before[i].serial == s;
        assert lines[i] == before[i];
      }
    }
  }

  lemma AskKeepsAbsent(m: Questions, serial: string, s: string, n: string)
    requires Distinct(m) && |m| <= MAX_QUERIES && serial !in Keys(m) && s != serial
    ensures var m' := Ask(m, s, n); Distinct(m') && |m'| <= MAX_QUERIES && serial !in Keys(m')
  {
    hide Put, Find;
    if s in Keys(m) {
      var i := WhereIn(m, s);
      AskAgain(m, s, n, i);
      hide Ask;
      RenamedInPlace(m, i, n);
    } else {
      AskNew(m, s, n);
      hide Ask;
      DistinctMore(m, s, n);
      AbsentMore(m, serial, s, n);
      TailKeys(m + [(s, n)]);
    }
  }

  lemma AskedOneMore(m: Questions, lines: seq<Line>)
    requires lines != []
    ensures var before, last := lines[..|lines| - 1], lines[|lines| - 1];
            var m1, a := Asked(m, before), Arrivals(m, before);
            Asked(m, lines) == (if last.Query? then Ask(m1, last.serial, last.name) else m1)
            && Arrivals(m, lines) == a + if last.Query? && last.serial !in Keys(m1) then 1 else 0
  {
    hide Ask, Keys;
  }

  lemma FollowsOneMore(m: Questions, serial: string, name: string, p: nat, lines: seq<Line>)
    requires Remembers(m, serial, name, p) && lines != [] && serial !in Serials(lines)
    requires Follows(m, serial, name, p, lines[..|lines| - 1])
    ensures Follows(m, serial, name, p, lines)
  {
    hide Ask, Serials, Behind, Keys, Distinct, Asked, Arrivals;
    var last := lines[|lines| - 1];
    MoreSerials(lines);
    AskedOneMore(m, lines);
    if last.Query? {
      var before := lines[..|lines| - 1];
      if Arrivals(m, before) > Room(m, p) {
        AskKeepsAbsent(Asked(m, before), serial, last.serial, last.name);
      } else if last.serial in Keys(Asked(m, before)) {
        FollowsKnown(m, serial, name, p, lines);
      } else {
        FollowsNew(m, serial, name, p, lines);
      }
    }
  }

  lemma FollowsKnown(m: Questions, serial: string, name: string, p: nat, lines: seq<Line>)
    requires Remembers(m, serial, name, p) && lines != [] && serial !in Serials(lines)
    requires Follows(m, serial, name, p, lines[..|lines| - 1])
    requires Arrivals(m, lines[..|lines| - 1]) <= Room(m, p) && lines[|lines| - 1].Query?
    requires lines[|lines| - 1].serial in Keys(Asked(m, lines[..|lines| - 1]))
    ensures Follows(m, serial, name, p, lines)
  {
    hide Ask, Serials, Behind, Keys, Distinct, Asked, Arrivals;
    var before, last := lines[..|lines| - 1], lines[|lines| - 1];
    MoreSerials(lines);
    AskedOneMore(m, lines);
    var q := PlaceAfter(m, p, Arrivals(m, before));
    KnownSerialAgain(Asked(m, before), serial, name, q, last.serial, last.name);
  }

  lemma FollowsNew(m: Questions, serial: string, name: string, p: nat, lines: seq<Line>)
    requires Remembers(m, serial, name, p) && lines != [] && serial !in Serials(lines)
    requires Follows(m, serial, name, p, lines[..|lines| - 1])
    requires Arrivals(m, lines[..|lines| - 1]) <= Room(m, p) && lines[|lines| - 1].Query?
    requires lines[|lines| - 1].serial !in Keys(Asked(m, lines[..|lines| - 1]))
    ensures Follows(m, serial, name, p, lines)
  {
    hide Ask, Serials, Behind, Keys, Distinct, Asked, Arrivals;
    var before, last := lines[..|lines| - 1], lines[|lines| - 1];
    MoreSerials(lines);
    AskedOneMore(m, lines);
    var m1 := Asked(m, before);
    var q := PlaceAfter(m, p, Arrivals(m, before));
    if |m1| < MAX_QUERIES {
      NewSerialFits(m1, serial, name, q, last.serial, last.name);
    } else {
      NewSerialEvicts(m1, serial, name, q, last.serial, last.name);
    }
  }

  lemma {:induction false} QuestionFollows(m: Questions, serial: string, name: string, p: nat, lines: seq<Line>)
    requires Remembers(m, serial, name, p) && serial !in Serials(lines)
    ensures Follows(m, serial, name, p, lines)
    decreases |lines|
  {
    if lines != [] {
      MoreSerials(lines);
      hide Follows, Remembers;
      QuestionFollows(m, serial, name, p, lines[..|lines| - 1]);
      FollowsOneMore(m, serial, name, p, lines);
    }
  }

  /**
   * A question is found again after any lines that do not ask under its serial, exactly when
   * no more than its room of them asked under a serial not remembered then.
   */
  lemma FoundAgainExactlyWhen(m: Questions, serial: string, name: string, p: nat, lines: seq<Line>)
    requires Remembers(m, serial, name, p) && serial !in Serials(lines)
    ensures Find(Asked(m, lines), serial) == if Arrivals(m, lines) <= Room(m, p) then Some(name) else None
  {
    QuestionFollows(m, serial, name, p, lines);
    if Arrivals(m, lines) <= Room(m, p) { FindIs(Asked(m, lines), PlaceAfter(m, p, Arrivals(m, lines))); }
  }

  // ---- A new question ----

  /** A question under a serial not remembered takes the last place. */
  lemma NewQuestionIsLast(m: Questions, serial: string, name: string)
    requires Distinct(m) && |m| <= MAX_QUERIES && serial !in Keys(m)
    ensures var m' := Ask(m, serial, name); |m'| > 0 && Remembers(m', serial, name, |m'| - 1)
  {
    AskNew(m, serial, name);
    AbsentFromAll(m, serial);
    hide Ask, Keys;
    var put := m + [(serial, name)];
    assert put[|m|] == (serial, name);
  }

  /** While fewer than 5,000 serials ask after it, it is found. */
  lemma {:induction false} FewSerialsArrive(m: Questions, serial: string, name: string, lines: seq<Line>)
    requires m != [] && Remembers(m, serial, name, |m| - 1) && serial !in Serials(lines)
    requires |Serials(lines)| < MAX_QUERIES
    ensures Arrivals(m, lines) < MAX_QUERIES
    decreases |lines|
  {
    if lines != [] {
      var before, last, p := lines[..|lines| - 1], lines[|lines| - 1], |m| - 1;
      MoreSerials(lines);
      SubsetIsSmaller(Serials(before), Serials(lines));
      FewSerialsArrive(m, serial, name, before);
      QuestionFollows(m, serial, name, p, before);
      var m1, a := Asked(m, before), Arrivals(m, before);
      var q := PlaceAfter(m, p, a);
      if last.Query? && last.serial !in Keys(m1) {
        BehindCounts(m1, q);
        assert last.serial !in Behind(m1, q);
        assert Behind(m, p) == {};
        SubsetIsSmaller(Behind(m1, q) + {last.serial}, Serials(lines));
      }
    }
  }

  // ---- Lines ----

  /** What the parser holds after some lines, each with its time. */
  function ParseAll(x: Index, lines: seq<(Line, int)>, classify: string -> Option<string>): Index {
    if lines == [] then x
    else
      var last := lines[|lines| - 1];
      Parse(ParseAll(x, lines[..|lines| - 1], classify), last.0, last.1, classify)
  }

  function LinesOnly(lines: seq<(Line, int)>): seq<Line> {
    seq(|lines|, i requires 0 <= i < |lines| => lines[i].0)
  }

  lemma {:induction false} QuestionsOf(x: Index, lines: seq<(Line, int)>, classify: string -> Option<string>)
    ensures ParseAll(x, lines, classify).queries == Asked(x.queries, LinesOnly(lines))
  {
    if lines != [] {
      QuestionsOf(x, lines[..|lines| - 1], classify);
      assert LinesOnly(lines)[..|lines| - 1] == LinesOnly(lines[..|lines| - 1]);
    }
  }

  /** The names are distinct and within the bound after any lines. */
  lemma {:induction false} QuestionsStaySound(lines: seq<Line>)
    ensures Distinct(Asked([], lines)) && |Asked([], lines)| <= MAX_QUERIES
  {
    if lines != [] {
      var before, last := Asked([], lines[..|lines| - 1]), lines[|lines| - 1];
      QuestionsStaySound(lines[..|lines| - 1]);
      if last.Query? { QueryStaysFindable(before, last.serial, last.name); }
    }
  }

  /**
   * After any lines: a question under a serial not remembered then, lines that ask under
   * fewer than 5,000 other serials, and its answer. The answer is attributed to the app of
   * the name asked for, when that name has one, and else to the app of the name that answered.
   */
  lemma AnswerGoesToTheQuestion(first: seq<(Line, int)>, serial: string, asked: string, between: seq<(Line, int)>,
                                client: string, name: string, ip: string, now: int,
                                classify: string -> Option<string>)
    requires serial !in Keys(ParseAll(Index([], [], []), first, classify).queries)
    requires serial !in Serials(LinesOnly(between)) && |Serials(LinesOnly(between))| < MAX_QUERIES
    ensures var x0 := ParseAll(Index([], [], []), first, classify);
            var x := ParseAll(Parse(x0, Query(serial, asked), now, classify), between, classify);
            var x' := Parse(x, Answer(serial, client, name, ip), now, classify);
            var app := if classify(asked).Some? then classify(asked) else classify(name);
            if app.None? then x' == x
            else x'.clientLog == x.clientLog + [Memory((client, ip), app.value, now)]
                 && x'.ipLog == x.ipLog + [Memory(ip, app.value, now)] && x'.queries == x.queries
  {
    var x0 := ParseAll(Index([], [], []), first, classify);
    QuestionsOf(Index([], [], []), first, classify);
    QuestionsStaySound(LinesOnly(first));
    NewQuestionIsLast(x0.queries, serial, asked);
    var m := Ask(x0.queries, serial, asked);
    FewSerialsArrive(m, serial, asked, LinesOnly(between));
    FoundAgainExactlyWhen(m, serial, asked, |m| - 1, LinesOnly(between));
    hide ParseAll, Ask, Remembers, Asked, Arrivals, LinesOnly;
    QuestionsOf(Parse(x0, Query(serial, asked), now, classify), between, classify);
  }

  /**
   * A serial used again keeps its old place: when it is the oldest of 5,000, the next new
   * question evicts it, and its answer is attributed without it.
   */
  lemma ReusedSerialIsForgotten(m: Questions, serial: string, asked: string, other: string, name: string)
    requires Distinct(m) && |m| == MAX_QUERIES && m[0].0 == serial && other !in Keys(m)
    ensures Find(Asked(m, [Query(serial, asked), Query(other, name)]), serial) == None
  {
    hide Put, Find;
    PutInPlace(m, serial, asked, 0);
    var m1 := Ask(m, serial, asked);
    assert m1 == m[0 := (serial, asked)];
    assert forall j :: 0 <= j < |m| ==> m1[j].0 == m[j].0;
    assert Keys(m1) == Keys(m) && m[0].0 in Keys(m);
    NewSerialEvicts(m1, serial, asked, 0, other, name);
    var lines := [Query(serial, asked), Query(other, name)];
    assert lines[..1] == [Query(serial, asked)] && lines[..1][..0] == [];
    assert Asked(m, lines[..1]) == m1;
  }

  // ---- From a destination back to the answer ----

  /** The newest memory of this key. */
  ghost predicate IsLatest<K>(log: seq<Memory<K>>, key: K, i: nat) {
    i < |log| && log[i].key == key && forall j :: i < j < |log| ==> log[j].key != key
  }

  /** And it is at most two hours old. */
  ghost predicate IsCurrent<K>(log: seq<Memory<K>>, key: K, now: int, i: nat) {
    IsLatest(log, key, i) && now - log[i].at < 7_200_000
  }

  lemma {:induction false} LastIsLatest<K>(log: seq<Memory<K>>, key: K, i: nat)
    requires IsLatest(log, key, i)
    ensures Last(log, key) == i
  {
    hide Last;
    LastIsLast(log, key);
    assert log[i].key == key;
  }

  lemma {:induction false} AfterLast<K>(log: seq<Memory<K>>, key: K)
    requires Last(log, key) >= 0
    ensures IsLatest(log, key, Last(log, key))
  {
    hide Last;
    LastIsLast(log, key);
  }

  lemma {:induction false} LatestIsFound<K>(log: seq<Memory<K>>, key: K, i: nat)
    requires IsLatest(log, key, i)
    ensures Find(Unbounded(log), key) == Some(Mapping(log[i].app, log[i].at))
  {
    hide Unbounded, Last, Keys, Find, Distinct, Bounded;
    UnboundedIsLastWrites(log);
    BoundedIsNewest(log, 1);
    LastIsLatest(log, key, i);
    var u := Unbounded(log);
    var p := PlaceOf(log, u, i);
    assert IsLastWrite(log, u[p]);
    FindInSuffix(u, 0, p);
  }

  lemma {:induction false} UnknownIsNotFound<K>(log: seq<Memory<K>>, key: K)
    requires forall i :: 0 <= i < |log| ==> log[i].key != key
    ensures Find(Unbounded(log), key) == None
  {
    hide Unbounded, Keys, Find, Last;
    LastIsLast(log, key);
    UnboundedIsLastWrites(log);
    var u := Unbounded(log);
    forall p | 0 <= p < |u|
      ensures Last(log, u[p].0) >= 0
    {
      assert IsLastWrite(log, u[p]);
    }
    FindsNothing(u, key);
  }

  /** A lookup in the bounded index answers with the newest memory of its key, if that is current. */
  lemma {:induction false} LookupIsCurrent<K(!new)>(log: seq<Memory<K>>, max: nat, key: K, now: int)
    requires max > 0 && InTime(log) && |FreshEntries(Unbounded(log), now)| <= max
    ensures forall i: nat :: IsCurrent(log, key, now, i) ==> Lookup(Bounded(log, max), key, now) == Some(log[i].app)
    ensures (forall i: nat :: !IsCurrent(log, key, now, i)) ==> Lookup(Bounded(log, max), key, now) == None
  {
    hide Unbounded, Bounded, Find, InTime, Last;
    BoundIsInvisibleExactlyWhen(log, max, now);
    forall i: nat | IsCurrent(log, key, now, i)
      ensures Lookup(Unbounded(log), key, now) == Some(log[i].app)
    {
      LatestIsFound(log, key, i);
    }
    LastIsLast(log, key);
    var last := Last(log, key);
    if last >= 0 {
      AfterLast(log, key);
      LatestIsFound(log, key, last);
      assert IsCurrent(log, key, now, last) <==> now - log[last].at < 7_200_000;
    } else {
      UnknownIsNotFound(log, key);
    }
  }

  /**
   * What a device's traffic to an address is attributed to: the app of the newest answer
   * that gave it to this device, if that is current; else that of the newest to anyone; else
   * none. It holds while at most 50,000 keys are fresh in each index.
   */
  lemma AppIsOfLatestAnswer(clientLog: seq<Memory<(string, string)>>, ipLog: seq<Memory<string>>,
                            client: string, ip: string, now: int)
    requires InTime(clientLog) && InTime(ipLog)
    requires |FreshEntries(Unbounded(clientLog), now)| <= 50_000 && |FreshEntries(Unbounded(ipLog), now)| <= 50_000
    ensures var app := AppForDestination(Bounded(clientLog, MAX_MAPPINGS), Bounded(ipLog, MAX_MAPPINGS),
                                         client, ip, now);
            (forall i: nat :: IsCurrent(clientLog, (client, ip), now, i) ==> app == Some(clientLog[i].app))
            && ((forall i: nat :: !IsCurrent(clientLog, (client, ip), now, i)) ==>
                  (forall i: nat :: IsCurrent(ipLog, ip, now, i) ==> app == Some(ipLog[i].app))
                  && ((forall i: nat :: !IsCurrent(ipLog, ip, now, i)) ==> app == None))
  {
    hide Lookup, IsCurrent, Bounded, Unbounded, FreshEntries, InTime;
    LookupIsCurrent(clientLog, MAX_MAPPINGS, (client, ip), now);
    LookupIsCurrent(ipLog, MAX_MAPPINGS, ip, now);
  }
}
