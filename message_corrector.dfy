/**
 * The `reorder` hook of the MessageCorrector plugin: in debug mode it appends each message's
 * ISO timestamp to its content, and when reordering is allowed it replaces the collection's
 * array with a copy stably sorted by the time the message reached the server.
 */
module MessageCorrector {
  import opened IsoTimestamp

  /** A chat message. Its server timestamp never changes; its content may. */
  class Message {
    const timestamp: TimeValue
    var content: string

    constructor (timestamp: TimeValue, content: string)
      ensures this.timestamp == timestamp && this.content == content
    {
      this.timestamp := timestamp;
      this.content := content;
    }
  }

  /** The host's message collection; `items` is its `_array` field. */
  class MessageList {
    var items: array<Message>

    constructor (items: array<Message>)
      ensures this.items == items
    {
      this.items := items;
    }
  }

  /** The plugin's settings. */
  datatype Settings = Settings(allowReordering: bool, debug: bool)

  const DefaultSettings: Settings := Settings(true, false)

  // ---------------------------------------------------------------------------
  // The debug annotation
  // ---------------------------------------------------------------------------

  /**
   * A message's content after the debug step under `test`. The old content stays as a prefix; it
   * changes exactly when the test fails, and then gains exactly one annotation line. Afterwards
   * the test passes, under the corrected test always, under the source's test for years 0 to 9999.
   */
  function Annotated(test: TimestampTest, content: string, t: TimeValue): (r: string)
    ensures content <= r
    ensures r == content <==> ShowsTimestamp(test, content)
    ensures r != content ==> r[|content|..] == AnnotationLine(t)
    ensures test == Corrected || 0 <= ToDateTime(t).date.year <= 9999 ==> ShowsTimestamp(test, r)
  {
    assert test == Corrected || 0 <= ToDateTime(t).date.year <= 9999 ==>
      ShowsTimestamp(test, content + AnnotationLine(t)) by {
      if test == Corrected {
        AnnotationRecognized(content, t);
      } else if 0 <= ToDateTime(t).date.year <= 9999 {
        AsWrittenRecognizesFourDigitYears(content, t);
      }
    }
    if ShowsTimestamp(test, content) then content else content + AnnotationLine(t)
  }

  /**
   * A second debug pass changes nothing, under the corrected test for every timestamp and under
   * the source's test for years 0 to 9999.
   */
  lemma AnnotatedIdempotent(test: TimestampTest, content: string, t: TimeValue)
    requires test == Corrected || 0 <= ToDateTime(t).date.year <= 9999
    ensures Annotated(test, Annotated(test, content, t), t) == Annotated(test, content, t)
  {
  }

  /**
   * With the source's test, a message from 10000-01-01T00:00:00.000Z gets a second timestamp
   * line on the second debug pass: toISOString writes that year as "+010000", which the
   * four-digit pattern does not match.
   */
  lemma AsWrittenAnnotationRepeats()
    ensures var once := Annotated(AsWritten, "", 253402300800000);
      Annotated(AsWritten, once, 253402300800000) != once
  {
    YearTenThousand();
    AsWrittenMissesExpandedYears(253402300800000);
    assert !HasTimestampAsWritten("");
    assert Annotated(AsWritten, "", 253402300800000) == AnnotationLine(253402300800000);
  }

  /**
   * The two tests already differ on the first debug pass: content that holds an expanded-year
   * timestamp line (typed by a user, say) is left alone by the corrected test and annotated by
   * the source's, whatever the message's own timestamp `t`.
   */
  lemma TestsDifferOnFirstPass(shown: TimeValue, t: TimeValue)
    requires !(0 <= ToDateTime(shown).date.year <= 9999)
    ensures var c := AnnotationLine(shown);
      Annotated(Corrected, c, t) == c && Annotated(AsWritten, c, t) != c
  {
    AnnotationRecognized("", shown);
    assert "" + AnnotationLine(shown) == AnnotationLine(shown);
    AsWrittenMissesExpandedYears(shown);
  }

  /** The content after `n` debug steps under `test`. */
  function AnnotatedTimes(test: TimestampTest, content: string, t: TimeValue, n: nat): (r: string)
    ensures content <= r
  {
    if n == 0 then content else Annotated(test, AnnotatedTimes(test, content, t, n - 1), t)
  }

  /** One more debug step after `n` of them makes `n + 1`. */
  lemma AnnotatedTimesStep(test: TimestampTest, content: string, t: TimeValue, n: nat, before: string, after: string)
    requires before == AnnotatedTimes(test, content, t, n)
    requires after == Annotated(test, before, t)
    ensures after == AnnotatedTimes(test, content, t, n + 1)
  {
  }

  /**
   * Under the corrected test, and under the source's test for years 0 to 9999, any number of
   * debug steps beyond the first changes nothing more.
   */
  lemma {:induction false} AnnotatedTimesIsOnce(test: TimestampTest, content: string, t: TimeValue, n: nat)
    requires test == Corrected || 0 <= ToDateTime(t).date.year <= 9999
    requires n >= 1
    ensures AnnotatedTimes(test, content, t, n) == Annotated(test, content, t)
  {
    if n > 1 {
      AnnotatedTimesIsOnce(test, content, t, n - 1);
      AnnotatedIdempotent(test, content, t);
    }
  }

  /** One more element of a prefix adds one to its own count and to no other. */
  lemma CountStep<T>(s: seq<T>, i: nat, x: T)
    requires i < |s|
    ensures multiset(s[..i + 1])[x] == multiset(s[..i])[x] + (if x == s[i] then 1 else 0)
  {
    assert s[..i + 1] == s[..i] + [s[i]];
  }

  /** The body of the debug loop for one message (index.ts:59-64). */
  method AnnotateOne(m: Message, test: TimestampTest)
    modifies m
    ensures m.content == Annotated(test, old(m.content), m.timestamp)
  {
    if !ShowsTimestamp(test, m.content) {
      m.content := m.content + AnnotationLine(m.timestamp);
    }
  }

  /**
   * The debug loop: every message in `a` gets one debug step per position it holds in `a`, so
   * a message listed twice is stepped twice (which AnnotatedTimesIsOnce shows is harmless
   * except for expanded years under the source's test).
   */
  method AnnotateAll(a: array<Message>, test: TimestampTest)
    modifies set m | m in a[..]
    ensures forall m :: m in a[..] ==>
      m.content == AnnotatedTimes(test, old(m.content), m.timestamp, multiset(a[..])[m])
  {
    ghost var s: seq<Message> := a[..];
    ghost var orig: map<Message, string> := map m: Message | m in s :: m.content;
    StartStepped(s, test, orig);
    for i := 0 to a.Length
      invariant SteppedUpTo(s, i, test, orig)
    {
      Visit(a[i], s, i, test, orig);
    }
    FinishStepped(s, test, orig);
  }

  /**
   * The state of the debug loop before position `i`: every message of `s` has had one debug
   * step, starting from its content in `orig`, per position before `i` that it holds.
   */
  ghost predicate SteppedUpTo(s: seq<Message>, i: nat, test: TimestampTest, orig: map<Message, string>)
    requires i <= |s|
    reads set m | m in s
  {
    forall m :: m in s ==>
      m in orig && m.content == AnnotatedTimes(test, orig[m], m.timestamp, multiset(s[..i])[m])
  }

  /** Before the loop no message has been stepped. */
  lemma StartStepped(s: seq<Message>, test: TimestampTest, orig: map<Message, string>)
    requires forall m :: m in s ==> m in orig && orig[m] == m.content
    ensures SteppedUpTo(s, 0, test, orig)
  {
    assert s[..0] == [];
  }

  /** After the loop every message has had one step per position it holds. */
  lemma FinishStepped(s: seq<Message>, test: TimestampTest, orig: map<Message, string>)
    requires SteppedUpTo(s, |s|, test, orig)
    ensures forall m :: m in s ==>
      m in orig && m.content == AnnotatedTimes(test, orig[m], m.timestamp, multiset(s)[m])
  {
    assert s[..|s|] == s;
  }

  /** One visit of the debug loop: it steps message `m` = `s[i]` and no other. */
  method Visit(m: Message, ghost s: seq<Message>, ghost i: nat, test: TimestampTest, ghost orig: map<Message, string>)
    requires i < |s| && m == s[i]
    requires SteppedUpTo(s, i, test, orig)
    modifies m
    ensures SteppedUpTo(s, i + 1, test, orig)
  {
    ghost var n := multiset(s[..i])[m];
    ghost var before := m.content;
    AnnotateOne(m, test);
    forall m' | m' in s
      ensures m' in orig && m'.content == AnnotatedTimes(test, orig[m'], m'.timestamp, multiset(s[..i + 1])[m'])
    {
      CountStep(s, i, m');
      if m' == m {
        AnnotatedTimesStep(test, orig[m], m.timestamp, n, before, m.content);
      }
    }
  }

  // ---------------------------------------------------------------------------
  // The sort specification
  // ---------------------------------------------------------------------------

  predicate SortedByTimestamp(s: seq<Message>)
  {
    forall i, j :: 0 <= i < j < |s| ==> s[i].timestamp <= s[j].timestamp
  }

  /**
   * `m` placed into `s` after every message whose timestamp is at most its own: the step of a
   * stable insertion sort.
   */
  function InsertByTimestamp(s: seq<Message>, m: Message): (r: seq<Message>)
    ensures multiset(r) == multiset(s) + multiset{m}
    ensures SortedByTimestamp(s) ==> SortedByTimestamp(r)
  {
    if s == [] || s[|s| - 1].timestamp <= m.timestamp then
      assert SortedByTimestamp(s) ==> SortedByTimestamp(s + [m]) by {
        if SortedByTimestamp(s) {
          SortedAppend(s, m);
        }
      }
      s + [m]
    else
      var init, last := s[..|s| - 1], s[|s| - 1];
      var front := InsertByTimestamp(init, m);
      assert s == init + [last];
      assert SortedByTimestamp(s) ==> SortedByTimestamp(front + [last]) by {
        if SortedByTimestamp(s) {
          assert forall k :: 0 <= k < |init| ==> init[k].timestamp <= last.timestamp by {
            forall k | 0 <= k < |init|
              ensures init[k].timestamp <= last.timestamp
            {
              assert init[k] == s[k];
            }
          }
          BoundedByLast(init, m, front, last);
          SortedAppend(front, last);
        }
      }
      front + [last]
  }

  /** Rearranging `init` with `m` added keeps every message no later than `last`. */
  lemma BoundedByLast(init: seq<Message>, m: Message, front: seq<Message>, last: Message)
    requires multiset(front) == multiset(init) + multiset{m}
    requires forall k :: 0 <= k < |init| ==> init[k].timestamp <= last.timestamp
    requires m.timestamp <= last.timestamp
    ensures forall k :: 0 <= k < |front| ==> front[k].timestamp <= last.timestamp
  {
    forall k | 0 <= k < |front|
      ensures front[k].timestamp <= last.timestamp
    {
      assert front[k] in multiset(init) + multiset{m};
      if front[k] != m {
        var p :| 0 <= p < |init| && init[p] == front[k];
      }
    }
  }

  /** Appending a message no earlier than the last keeps a sequence sorted. */
  lemma SortedAppend(s: seq<Message>, m: Message)
    requires SortedByTimestamp(s)
    requires s != [] ==> s[|s| - 1].timestamp <= m.timestamp
    ensures SortedByTimestamp(s + [m])
  {
  }

  /** The messages of `s` in ascending timestamp order, equal timestamps in their order in `s`. */
  function SortByTimestamp(s: seq<Message>): (r: seq<Message>)
    ensures multiset(r) == multiset(s)
    ensures SortedByTimestamp(r)
  {
    if s == [] then []
    else
      assert s == s[..|s| - 1] + [s[|s| - 1]];
      InsertByTimestamp(SortByTimestamp(s[..|s| - 1]), s[|s| - 1])
  }

  /** The messages of `s` whose timestamp is `t`, in their order in `s`. */
  function WithTimestamp(s: seq<Message>, t: int): (r: seq<Message>)
    ensures |r| <= |s|
  {
    if s == [] then [] else
    WithTimestamp(s[..|s| - 1], t) + (if s[|s| - 1].timestamp == t then [s[|s| - 1]] else [])
  }

  /** The filter keeps exactly the messages of `s` that have timestamp `t`. */
  lemma {:induction false} WithTimestampMembers(s: seq<Message>, t: int, m: Message)
    ensures m in WithTimestamp(s, t) <==> m in s && m.timestamp == t
  {
    if s != [] {
      var init, last := s[..|s| - 1], s[|s| - 1];
      WithTimestampMembers(init, t, m);
      assert s == init + [last];
    }
  }

  lemma {:induction false} WithTimestampConcat(a: seq<Message>, b: seq<Message>, t: int)
    ensures WithTimestamp(a + b, t) == WithTimestamp(a, t) + WithTimestamp(b, t)
    decreases |b|
  {
    if b != [] {
      var b' := b[..|b| - 1];
      assert (a + b)[..|a + b| - 1] == a + b';
      WithTimestampConcat(a, b', t);
    } else {
      assert a + b == a;
    }
  }

  lemma WithTimestampSingle(m: Message, t: int)
    ensures WithTimestamp([m], t) == if m.timestamp == t then [m] else []
  {
    assert [m][..0] == [];
  }

  /** Inserting never moves a message past one with the same timestamp. */
  lemma {:induction false} InsertKeepsTies(s: seq<Message>, m: Message, t: int)
    ensures WithTimestamp(InsertByTimestamp(s, m), t) == WithTimestamp(s + [m], t)
  {
    if !(s == [] || s[|s| - 1].timestamp <= m.timestamp) {
      var init, last := s[..|s| - 1], s[|s| - 1];
      assert s == init + [last];
      assert InsertByTimestamp(s, m) == InsertByTimestamp(init, m) + [last];
      InsertKeepsTies(init, m, t);
      SwapUnderFilter(InsertByTimestamp(init, m), init, last, m, t);
    }
  }

  /**
   * `last` moved in front of a later message `m` keeps every filter: the two are never both
   * kept by the same filter.
   */
  lemma SwapUnderFilter(r: seq<Message>, init: seq<Message>, last: Message, m: Message, t: int)
    requires last.timestamp > m.timestamp
    requires WithTimestamp(r, t) == WithTimestamp(init + [m], t)
    ensures WithTimestamp(r + [last], t) == WithTimestamp(init + [last] + [m], t)
  {
    var wi, wm, wl := WithTimestamp(init, t), WithTimestamp([m], t), WithTimestamp([last], t);
    WithTimestampSingle(m, t);
    WithTimestampSingle(last, t);
    calc {
      WithTimestamp(r + [last], t);
      { WithTimestampConcat(r, [last], t); }
      WithTimestamp(r, t) + wl;
      { WithTimestampConcat(init, [m], t); }
      wi + wm + wl;
      { if wm == [] { assert wi + wm == wi && wl + wm == wl; } else { assert wi + wl == wi; } }
      wi + wl + wm;
      { WithTimestampConcat(init, [last], t); }
      WithTimestamp(init + [last], t) + wm;
      { WithTimestampConcat(init + [last], [m], t); }
      WithTimestamp(init + [last] + [m], t);
    }
  }


  /** The sort is stable: for every timestamp, those messages keep their relative order. */
  lemma {:induction false} SortIsStable(s: seq<Message>, t: int)
    ensures WithTimestamp(SortByTimestamp(s), t) == WithTimestamp(s, t)
  {
    if s != [] {
      var init, last := s[..|s| - 1], s[|s| - 1];
      calc {
        WithTimestamp(SortByTimestamp(s), t);
        WithTimestamp(InsertByTimestamp(SortByTimestamp(init), last), t);
        { InsertKeepsTies(SortByTimestamp(init), last, t); }
        WithTimestamp(SortByTimestamp(init) + [last], t);
        { WithTimestampConcat(SortByTimestamp(init), [last], t); }
        WithTimestamp(SortByTimestamp(init), t) + WithTimestamp([last], t);
        { SortIsStable(init, t); WithTimestampSingle(last, t); }
        WithTimestamp(init, t) + (if last.timestamp == t then [last] else []);
        WithTimestamp(s, t);
      }
    }
  }

  /**
   * Sortedness and stability fix the result: two sorted sequences with the same messages of each
   * timestamp, in the same order, are equal.
   */
  lemma {:induction false} StableSortIsUnique(r1: seq<Message>, r2: seq<Message>)
    requires SortedByTimestamp(r1) && SortedByTimestamp(r2)
    requires forall t :: WithTimestamp(r1, t) == WithTimestamp(r2, t)
    ensures r1 == r2
    decreases |r1| + |r2|
  {
    if r1 == [] && r2 == [] {
      return;
    }
    if r1 == [] || r2 == [] {
      NonEmptyFilter(r1, r2);
      assert false;
    }
    var a, b := r1[|r1| - 1], r2[|r2| - 1];
    LastTimestampsAgree(r1, r2);
    var i1, i2 := r1[..|r1| - 1], r2[..|r2| - 1];
    forall t
      ensures WithTimestamp(i1, t) == WithTimestamp(i2, t)
    {
      DropLastFilter(r1, r2, t);
    }
    StableSortIsUnique(i1, i2);
    LastsAgree(r1, r2);
    assert r1 == i1 + [a] && r2 == i2 + [b];
  }

  /** The last message of a non-empty sequence is among those with its timestamp. */
  lemma LastIsFiltered(s: seq<Message>)
    requires s != []
    ensures s[|s| - 1] in WithTimestamp(s, s[|s| - 1].timestamp)
  {
    WithTimestampMembers(s, s[|s| - 1].timestamp, s[|s| - 1]);
  }

  /** Sequences with the same filters are both empty or both non-empty. */
  lemma NonEmptyFilter(r1: seq<Message>, r2: seq<Message>)
    requires forall t :: WithTimestamp(r1, t) == WithTimestamp(r2, t)
    ensures r1 == [] <==> r2 == []
  {
    if r1 != [] {
      LastIsFiltered(r1);
      assert WithTimestamp(r2, r1[|r1| - 1].timestamp) != [];
    }
    if r2 != [] {
      LastIsFiltered(r2);
      assert WithTimestamp(r1, r2[|r2| - 1].timestamp) != [];
    }
  }

  /** In a sorted sequence, every message that has timestamp `t` is no later than the last one. */
  lemma FilteredBelowLast(s: seq<Message>, t: int)
    requires s != [] && SortedByTimestamp(s)
    requires WithTimestamp(s, t) != []
    ensures t <= s[|s| - 1].timestamp
  {
    var x := WithTimestamp(s, t)[0];
    WithTimestampMembers(s, t, x);
    var k :| 0 <= k < |s| && s[k] == x;
    if k < |s| - 1 {
      assert s[k].timestamp <= s[|s| - 1].timestamp;
    }
  }

  /** Two sorted sequences with the same filters end in the same timestamp. */
  lemma LastTimestampsAgree(r1: seq<Message>, r2: seq<Message>)
    requires r1 != [] && r2 != []
    requires SortedByTimestamp(r1) && SortedByTimestamp(r2)
    requires forall t :: WithTimestamp(r1, t) == WithTimestamp(r2, t)
    ensures r1[|r1| - 1].timestamp == r2[|r2| - 1].timestamp
  {
    var ta, tb := r1[|r1| - 1].timestamp, r2[|r2| - 1].timestamp;
    LastIsFiltered(r1);
    LastIsFiltered(r2);
    assert WithTimestamp(r2, ta) == WithTimestamp(r1, ta);
    assert WithTimestamp(r1, tb) == WithTimestamp(r2, tb);
    FilteredBelowLast(r2, ta);
    FilteredBelowLast(r1, tb);
  }

  /** Equal filters that end in the same timestamp agree once the last message is dropped. */
  lemma DropLastFilter(r1: seq<Message>, r2: seq<Message>, t: int)
    requires r1 != [] && r2 != []
    requires r1[|r1| - 1].timestamp == r2[|r2| - 1].timestamp
    requires WithTimestamp(r1, t) == WithTimestamp(r2, t)
    ensures WithTimestamp(r1[..|r1| - 1], t) == WithTimestamp(r2[..|r2| - 1], t)
  {
    var a, b := r1[|r1| - 1], r2[|r2| - 1];
    var w1, w2 := WithTimestamp(r1[..|r1| - 1], t), WithTimestamp(r2[..|r2| - 1], t);
    if a.timestamp == t {
      assert WithTimestamp(r1, t) == w1 + [a];
      assert WithTimestamp(r2, t) == w2 + [b];
      AppendCancel(w1, a, w2, b);
    } else {
      assert WithTimestamp(r1, t) == w1 + [];
      assert WithTimestamp(r2, t) == w2 + [];
      assert w1 + [] == w1 && w2 + [] == w2;
    }
  }

  /** Equal filters that end in the same timestamp end in the same message. */
  lemma LastsAgree(r1: seq<Message>, r2: seq<Message>)
    requires r1 != [] && r2 != []
    requires r1[|r1| - 1].timestamp == r2[|r2| - 1].timestamp
    requires WithTimestamp(r1, r1[|r1| - 1].timestamp) == WithTimestamp(r2, r1[|r1| - 1].timestamp)
    ensures r1[|r1| - 1] == r2[|r2| - 1]
  {
    var t := r1[|r1| - 1].timestamp;
    AppendCancel(WithTimestamp(r1[..|r1| - 1], t), r1[|r1| - 1], WithTimestamp(r2[..|r2| - 1], t), r2[|r2| - 1]);
  }

  lemma AppendCancel<T>(x: seq<T>, a: T, y: seq<T>, b: T)
    requires x + [a] == y + [b]
    ensures x == y && a == b
  {
    assert |x| == |y|;
    assert x == (x + [a])[..|x|];
    assert y == (y + [b])[..|y|];
    assert a == (x + [a])[|x|];
  }

  /** SortByTimestamp is the stable sort: any sorted rearrangement that keeps ties in order equals it. */
  lemma IsTheStableSort(s: seq<Message>, r: seq<Message>)
    requires SortedByTimestamp(r)
    requires forall t :: WithTimestamp(r, t) == WithTimestamp(s, t)
    ensures r == SortByTimestamp(s)
  {
    forall t
      ensures WithTimestamp(r, t) == WithTimestamp(SortByTimestamp(s), t)
    {
      SortIsStable(s, t);
    }
    StableSortIsUnique(r, SortByTimestamp(s));
  }

  /** A sequence already in timestamp order is left as it is. */
  lemma SortKeepsSorted(s: seq<Message>)
    requires SortedByTimestamp(s)
    ensures SortByTimestamp(s) == s
  {
    IsTheStableSort(s, s);
  }

  /** Sorting twice is sorting once. */
  lemma SortIdempotent(s: seq<Message>)
    ensures SortByTimestamp(SortByTimestamp(s)) == SortByTimestamp(s)
  {
    SortKeepsSorted(SortByTimestamp(s));
  }

  // ---------------------------------------------------------------------------
  // The sort in place
  // ---------------------------------------------------------------------------

  /** Inserting `m` into `s` lands it at `j` when everything from `j` on is later and `s[j - 1]` is not. */
  lemma {:induction false} InsertAt(s: seq<Message>, m: Message, j: nat)
    requires j <= |s|
    requires forall k :: j <= k < |s| ==> s[k].timestamp > m.timestamp
    requires j == 0 || s[j - 1].timestamp <= m.timestamp
    ensures InsertByTimestamp(s, m) == s[..j] + [m] + s[j..]
    decreases |s|
  {
    if j < |s| {
      var init, last := s[..|s| - 1], s[|s| - 1];
      calc {
        InsertByTimestamp(s, m);
        InsertByTimestamp(init, m) + [last];
        { InsertAt(init, m, j); }
        init[..j] + [m] + init[j..] + [last];
        init[..j] + [m] + (init[j..] + [last]);
        { assert init[..j] == s[..j] && init[j..] + [last] == s[j..]; }
        s[..j] + [m] + s[j..];
      }
    } else {
      assert s[..j] == s && s[j..] == [];
    }
  }

  /**
   * Moves `a[i]` left past every later message of `a[..i]`: one step of insertion sort, the
   * array counterpart of InsertByTimestamp.
   */
  method InsertLast(a: array<Message>, i: nat)
    requires i < a.Length
    modifies a
    ensures a[..i + 1] == InsertByTimestamp(old(a[..i]), old(a[i]))
    ensures forall k :: i < k < a.Length ==> a[k] == old(a[k])
  {
    ghost var before: seq<Message> := a[..];
    var m := a[i];
    var j := ShiftLater(a, i);
    a[j] := m;
    InsertionSplice(before, a[..], i, j);
  }
  /**
   * The array contents after one insertion-sort step, given how the inner loop shifted them,
   * are the sorted prefix with its next element inserted.
   */
  lemma InsertionSplice(before: seq<Message>, after: seq<Message>, i: nat, j: nat)
    requires i < |before| == |after| && j <= i
    requires forall k :: 0 <= k < j ==> after[k] == before[k]
    requires after[j] == before[i]
    requires forall k :: j < k <= i ==> after[k] == before[k - 1]
    requires forall k :: j <= k < i ==> before[k].timestamp > before[i].timestamp
    requires j == 0 || before[j - 1].timestamp <= before[i].timestamp
    ensures after[..i + 1] == InsertByTimestamp(before[..i], before[i])
  {
    InsertAt(before[..i], before[i], j);
    Splice(after[..i + 1], before[..i], before[i], j);
  }


  /**
   * The inner loop of insertion sort: shifts the messages of `a[..i]` later than `a[i]` one place
   * right and returns the gap left for `a[i]`.
   */
  method ShiftLater(a: array<Message>, i: nat) returns (j: nat)
    requires i < a.Length
    modifies a
    ensures j <= i
    ensures forall k :: 0 <= k < j ==> a[k] == old(a[k])
    ensures forall k :: j < k <= i ==> a[k] == old(a[k - 1])
    ensures forall k :: i < k < a.Length ==> a[k] == old(a[k])
    ensures forall k :: j <= k < i ==> old(a[k]).timestamp > old(a[i]).timestamp
    ensures j == 0 || old(a[j - 1]).timestamp <= old(a[i]).timestamp
  {
    var m := a[i];
    j := i;
    while j > 0 && a[j - 1].timestamp > m.timestamp
      invariant 0 <= j <= i
      invariant forall k :: 0 <= k < j ==> a[k] == old(a[k])
      invariant forall k :: j < k <= i ==> a[k] == old(a[k - 1])
      invariant forall k :: i < k < a.Length ==> a[k] == old(a[k])
      invariant forall k :: j <= k < i ==> old(a[k]).timestamp > m.timestamp
    {
      a[j] := a[j - 1];
      j := j - 1;
    }
  }

  /** A sequence that agrees with `sorted` before `j`, holds `m` at `j` and `sorted` shifted after. */
  lemma Splice(b: seq<Message>, sorted: seq<Message>, m: Message, j: nat)
    requires j <= |sorted| && |b| == |sorted| + 1
    requires forall k :: 0 <= k < j ==> b[k] == sorted[k]
    requires b[j] == m
    requires forall k :: j < k < |b| ==> b[k] == sorted[k - 1]
    ensures b == sorted[..j] + [m] + sorted[j..]
  {
    var c := sorted[..j] + [m] + sorted[j..];
    assert |c| == |b|;
    forall k | 0 <= k < |b|
      ensures b[k] == c[k]
    {
      if k > j {
        assert c[k] == sorted[k - 1];
      }
    }
  }

  /** Sorting one more message is inserting it into the sorted prefix. */
  lemma SortPrefixStep(s: seq<Message>, i: nat)
    requires i < |s|
    ensures SortByTimestamp(s[..i + 1]) == InsertByTimestamp(SortByTimestamp(s[..i]), s[i])
  {
    assert s[..i + 1][..i] == s[..i];
  }

  /**
   * Insertion sort of `a` by timestamp, in place. It stands for the JavaScript engine's built-in
   * sort, which is stable; the comparator `tA - tB` orders by timestamp.
   */
  method SortInPlace(a: array<Message>)
    modifies a
    ensures a[..] == SortByTimestamp(old(a[..]))
  {
    ghost var s: seq<Message> := a[..];
    for i := 0 to a.Length
      invariant a[..i] == SortByTimestamp(s[..i])
      invariant forall k :: i <= k < a.Length ==> a[k] == s[k]
    {
      InsertLast(a, i);
      SortPrefixStep(s, i);
    }
    assert a[..a.Length] == a[..] && s[..a.Length] == s;
  }

  // ---------------------------------------------------------------------------
  // reorder
  // ---------------------------------------------------------------------------

  /** `[...a].sort(...)`: a new array holding the messages of `a` in timestamp order. */
  method SortedCopy(a: array<Message>) returns (copy: array<Message>)
    ensures fresh(copy)
    ensures copy[..] == SortByTimestamp(a[..])
  {
    copy := new Message[a.Length](i requires 0 <= i < a.Length reads a => a[i]);
    assert copy[..] == a[..];
    SortInPlace(copy);
  }

  /**
   * The plugin's `reorder`: annotate in debug mode, then, when reordering is allowed, replace
   * the array with a sorted copy. The same collection object is returned.
   */
  method Reorder(messages: MessageList, settings: Settings, test: TimestampTest) returns (result: MessageList)
    modifies messages, set i | 0 <= i < messages.items.Length :: messages.items[i]
    ensures result == messages
    ensures !settings.allowReordering ==> messages.items == old(messages.items)
    ensures settings.allowReordering ==>
      fresh(messages.items) && messages.items[..] == SortByTimestamp(old(messages.items[..]))
    ensures multiset(messages.items[..]) == multiset(old(messages.items[..]))
    ensures old(messages.items)[..] == old(messages.items[..])
    ensures forall m :: m in old(messages.items[..]) ==>
      m.content == if settings.debug
        then AnnotatedTimes(test, old(m.content), m.timestamp, multiset(old(messages.items[..]))[m])
        else old(m.content)
  {
    var original := messages.items;
    if settings.debug {
      AnnotateAll(original, test);
    }
    if settings.allowReordering {
      messages.items := SortedCopy(original);
    }
    result := messages;
  }
}
