/**
 * The main loop of `run_bot`: for each configured feed, the first five entry titles are
 * considered in feed order; a title already seen is skipped, otherwise it is added to the
 * seen set and then classified, parsed and decided.
 */
module NewsBot {
  import opened ResponseParser
  import opened Decision
  import opened IntLiteral
  import Text
  import opened Wrappers

  /** Only the first five entries of each feed are considered (`feed.entries[:5]`). */
  const MAX_ENTRIES: nat := 5

  /** One processed headline with its parsed classification and the action decided for it. */
  datatype Signal = Signal(headline: string, data: map<string, string>, action: Action)

  /** `entries[:5]`. */
  function Considered(titles: seq<string>): (r: seq<string>)
    ensures r <= titles
    ensures |r| == if |titles| <= MAX_ENTRIES then |titles| else MAX_ENTRIES
  {
    if |titles| <= MAX_ENTRIES then titles else titles[..MAX_ENTRIES]
  }

  /** The titles of `titles` that are processed, in order, when the seen set starts as `seen`:
      a title is processed when it is neither in `seen` nor earlier in the batch. */
  function NewTitles(titles: seq<string>, seen: set<string>): seq<string> {
    if titles == [] then []
    else
      var init := titles[..|titles| - 1];
      var t := titles[|titles| - 1];
      NewTitles(init, seen) + (if t in seen || t in init then [] else [t])
  }

  function ElementsOf(titles: seq<string>): set<string> {
    set t | t in titles
  }

  /** One more title: it is processed exactly when it is not yet in the seen set. */
  lemma NewTitlesStep(titles: seq<string>, i: nat, seen: set<string>)
    requires i < |titles|
    ensures ElementsOf(titles[..i + 1]) == ElementsOf(titles[..i]) + {titles[i]}
    ensures NewTitles(titles[..i + 1], seen) ==
            NewTitles(titles[..i], seen) + (if titles[i] in seen + ElementsOf(titles[..i]) then [] else [titles[i]])
  {
    assert titles[..i + 1] == titles[..i] + [titles[i]];
    assert titles[..i + 1][..i] == titles[..i];
  }

  function Headlines(signals: seq<Signal>): (r: seq<string>)
    ensures |r| == |signals| && forall k :: 0 <= k < |signals| ==> r[k] == signals[k].headline
  {
    if signals == [] then [] else Headlines(signals[..|signals| - 1]) + [signals[|signals| - 1].headline]
  }

  /** What the pipeline does with a headline once it is new: classify, parse, decide. */
  predicate ProcessedAs(s: Signal, classify: string -> string) {
    s.data == Parse(classify(s.headline)) && s.action == DecideAction(s.data)
  }

  /** The titles considered across a run over several feeds, feed after feed. */
  function ConsideredAll(feeds: seq<seq<string>>): seq<string> {
    if feeds == [] then [] else ConsideredAll(feeds[..|feeds| - 1]) + Considered(feeds[|feeds| - 1])
  }

  /** The bot's state: the module-level `seen_headlines` set, kept in memory for the process. */
  class Bot {
    var seen: set<string>

    constructor ()
      ensures seen == {}
    {
      seen := {};
    }

    /** The inner loop of `run_bot` over one feed's entry titles; `classify` stands for the
        external classifier call. */
    method RunFeed(titles: seq<string>, classify: string -> string) returns (signals: seq<Signal>)
      modifies this
      ensures seen == old(seen) + ElementsOf(Considered(titles))
      ensures Headlines(signals) == NewTitles(Considered(titles), old(seen))
      ensures forall k :: 0 <= k < |signals| ==> ProcessedAs(signals[k], classify)
    {
      var entries := Considered(titles);
      signals := [];
      var i := 0;
      while i < |entries|
        invariant 0 <= i <= |entries|
        invariant seen == old(seen) + ElementsOf(entries[..i])
        invariant Headlines(signals) == NewTitles(entries[..i], old(seen))
        invariant forall k :: 0 <= k < |signals| ==> ProcessedAs(signals[k], classify)
      {
        var headline := entries[i];
        NewTitlesStep(entries, i, old(seen));
        if headline in seen {
          i := i + 1;
          continue;
        }
        seen := seen + {headline};
        var aiText := classify(headline);
        var aiData := ParseAiResponse(aiText);
        var action := DecideAction(aiData);
        HeadlinesAppend(signals, [Signal(headline, aiData, action)]);
        signals := signals + [Signal(headline, aiData, action)];
        i := i + 1;
      }
      assert entries[..i] == entries;
    }

    /** `run_bot`: one pass over every configured feed, in order, sharing the seen set. */
    method RunBot(feeds: seq<seq<string>>, classify: string -> string) returns (signals: seq<Signal>)
      modifies this
      ensures seen == old(seen) + ElementsOf(ConsideredAll(feeds))
      ensures Headlines(signals) == NewTitles(ConsideredAll(feeds), old(seen))
      ensures forall k :: 0 <= k < |signals| ==> ProcessedAs(signals[k], classify)
    {
      signals := [];
      var i := 0;
      while i < |feeds|
        invariant 0 <= i <= |feeds|
        invariant seen == old(seen) + ElementsOf(ConsideredAll(feeds[..i]))
        invariant Headlines(signals) == NewTitles(ConsideredAll(feeds[..i]), old(seen))
        invariant forall k :: 0 <= k < |signals| ==> ProcessedAs(signals[k], classify)
      {
        var before := ConsideredAll(feeds[..i]);
        assert ConsideredAll(feeds[..i + 1]) == before + Considered(feeds[i]) by {
          assert feeds[..i + 1][..i] == feeds[..i];
        }
        ElementsOfAppend(before, Considered(feeds[i]));
        var feedSignals := RunFeed(feeds[i], classify);
        NewTitlesAppend(before, Considered(feeds[i]), old(seen));
        HeadlinesAppend(signals, feedSignals);
        ghost var done := signals;
        signals := signals + feedSignals;
        forall k | 0 <= k < |signals| ensures ProcessedAs(signals[k], classify) {
          if k < |done| { assert signals[k] == done[k]; } else { assert signals[k] == feedSignals[k - |done|]; }
        }
        i := i + 1;
      }
      assert feeds[..i] == feeds;
    }
  }

  lemma ElementsOfAppend(a: seq<string>, b: seq<string>)
    ensures ElementsOf(a + b) == ElementsOf(a) + ElementsOf(b)
  {
  }

  lemma HeadlinesAppend(a: seq<Signal>, b: seq<Signal>)
    ensures Headlines(a + b) == Headlines(a) + Headlines(b)
  {
  }

  // ---------------------------------------------------------------- dedup properties

  /** Processing a batch after another is processing their concatenation, with the first
      batch's titles added to the seen set. */
  lemma {:induction false} NewTitlesAppend(a: seq<string>, b: seq<string>, seen: set<string>)
    ensures NewTitles(a + b, seen) == NewTitles(a, seen) + NewTitles(b, seen + ElementsOf(a))
  {
    if b == [] {
      assert a + b == a;
    } else {
      var binit := b[..|b| - 1];
      var t := b[|b| - 1];
      assert (a + b)[..|a + b| - 1] == a + binit;
      NewTitlesAppend(a, binit, seen);
      assert t in a + binit <==> t in a || t in binit;
    }
  }

  /** Every processed title was considered and was not seen before. */
  lemma {:induction false} NewTitlesSound(titles: seq<string>, seen: set<string>)
    ensures forall k :: 0 <= k < |NewTitles(titles, seen)| ==>
              NewTitles(titles, seen)[k] in titles && NewTitles(titles, seen)[k] !in seen
  {
    if titles != [] {
      var init := titles[..|titles| - 1];
      NewTitlesSound(init, seen);
      assert forall x :: x in init ==> x in titles;
    }
  }

  /** Every considered title that was not seen before is processed. */
  lemma {:induction false} NewTitlesComplete(titles: seq<string>, seen: set<string>)
    ensures forall t :: t in titles && t !in seen ==> t in NewTitles(titles, seen)
  {
    if titles != [] {
      var init := titles[..|titles| - 1];
      NewTitlesComplete(init, seen);
      forall t | t in titles && t !in seen ensures t in NewTitles(titles, seen) {
        if t != titles[|titles| - 1] {
          assert t in init by {
            var j :| 0 <= j < |titles| && titles[j] == t;
            assert init[j] == t;
          }
        }
      }
    }
  }

  /** A title repeated within a batch is processed at most once. */
  lemma {:induction false} NewTitlesDistinct(titles: seq<string>, seen: set<string>)
    ensures forall i, j :: 0 <= i < j < |NewTitles(titles, seen)| ==> NewTitles(titles, seen)[i] != NewTitles(titles, seen)[j]
  {
    if titles != [] {
      var init := titles[..|titles| - 1];
      NewTitlesDistinct(init, seen);
      NewTitlesSound(init, seen);
    }
  }

  /** `a` is `b` with some elements left out, the rest in their original order. */
  predicate IsSubsequence(a: seq<string>, b: seq<string>) {
    if a == [] then true
    else if b == [] then false
    else if a[|a| - 1] == b[|b| - 1] then IsSubsequence(a[..|a| - 1], b[..|b| - 1])
    else IsSubsequence(a, b[..|b| - 1])
  }

  lemma {:induction false} SubsequenceExtend(a: seq<string>, b: seq<string>, t: string)
    requires IsSubsequence(a, b)
    ensures IsSubsequence(a, b + [t])
    decreases |a| + |b|, 1
  {
    if a != [] {
      assert (b + [t])[..|b|] == b;
      if a[|a| - 1] == t {
        SubsequenceShrink(a, b);
      }
    }
  }

  lemma {:induction false} SubsequenceShrink(a: seq<string>, b: seq<string>)
    requires a != [] && IsSubsequence(a, b)
    ensures IsSubsequence(a[..|a| - 1], b)
    decreases |a| + |b|, 0
  {
    var a' := a[..|a| - 1];
    var b' := b[..|b| - 1];
    assert b' + [b[|b| - 1]] == b;
    if a[|a| - 1] == b[|b| - 1] {
      if a' != [] {
        SubsequenceExtend(a', b', b[|b| - 1]);
      }
    } else {
      SubsequenceShrink(a, b');
      if a' != [] {
        SubsequenceExtend(a', b', b[|b| - 1]);
      }
    }
  }

  /** The processed titles keep feed order. */
  lemma {:induction false} NewTitlesInOrder(titles: seq<string>, seen: set<string>)
    ensures IsSubsequence(NewTitles(titles, seen), titles)
  {
    if titles != [] {
      var init := titles[..|titles| - 1];
      var t := titles[|titles| - 1];
      NewTitlesInOrder(init, seen);
      var p := NewTitles(init, seen);
      assert init + [t] == titles;
      if !(t in seen || t in init) {
        assert (p + [t])[..|p|] == p;
      } else {
        assert NewTitles(titles, seen) == p;
        SubsequenceExtend(p, init, t);
      }
    }
  }

  /** Titles beyond the fifth entry are processed only if they also occur among the first five. */
  lemma OnlyFirstFive(titles: seq<string>, seen: set<string>, t: string)
    requires t in NewTitles(Considered(titles), seen)
    ensures exists i :: 0 <= i < MAX_ENTRIES && i < |titles| && titles[i] == t
    ensures t !in seen
  {
    var c := Considered(titles);
    NewTitlesSound(c, seen);
    var k :| 0 <= k < |NewTitles(c, seen)| && NewTitles(c, seen)[k] == t;
    var i :| 0 <= i < |c| && c[i] == t;
    assert titles[i] == t;
  }

  /** At most five classifier calls per feed. */
  lemma {:induction false} NewTitlesBound(titles: seq<string>, seen: set<string>)
    ensures |NewTitles(titles, seen)| <= |titles|
  {
    if titles != [] {
      NewTitlesBound(titles[..|titles| - 1], seen);
    }
  }

  /** Once a feed has been run, running it again processes nothing. */
  lemma RerunProcessesNothing(titles: seq<string>, seen: set<string>)
    ensures NewTitles(Considered(titles), seen + ElementsOf(Considered(titles))) == []
  {
    var c := Considered(titles);
    var r := NewTitles(c, seen + ElementsOf(c));
    NewTitlesAllSeen(c, seen + ElementsOf(c));
  }

  lemma {:induction false} NewTitlesAllSeen(titles: seq<string>, seen: set<string>)
    requires forall t :: t in titles ==> t in seen
    ensures NewTitles(titles, seen) == []
  {
    if titles != [] {
      NewTitlesAllSeen(titles[..|titles| - 1], seen);
    }
  }

  /** The same headline twice in a feed is processed once. */
  lemma DuplicateHeadlineOnce(h: string)
    ensures NewTitles(Considered([h, h]), {}) == [h]
  {
    assert Considered([h, h]) == [h, h];
    assert [h, h][..1] == [h];
    assert [h][..0] == [];
    assert NewTitles([h], {}) == [h];
  }

  // ---------------------------------------------------------------- whole pipeline

  /** The field names the classifier is asked to answer with, in its order. */
  function ReplyKeys(): seq<string> {
    ["MarketRelevant", "Category", "Sentiment", "Confidence", "Explanation"]
  }

  lemma ReplyKeysWellFormed()
    ensures |ReplyKeys()| == 5
    ensures forall i :: 0 <= i < 5 ==> WellFormedKey(ReplyKeys()[i])
    ensures forall i, j :: 0 <= i < j < 5 ==> ReplyKeys()[i] != ReplyKeys()[j]
  {
  }

  /** A decimal confidence is a well-formed field value. */
  lemma ShowIntWellFormed(c: int)
    ensures WellFormedValue(ShowInt(c))
  {
    ShowNatDigits(if c < 0 then -c else c);
    var s := ShowInt(c);
    assert forall i | 0 <= i < |s| :: s[i] == '-' || IsDigit(s[i]) by {
      if c < 0 {
        assert forall i | 1 <= i < |s| :: s[i] == ShowNat(-c)[i - 1];
      }
    }
  }

  /** Classifier reply to action, for every reply in the requested format: the parsed fields
      drive the decision exactly as the rules say. */
  lemma ReplyDecides(relevant: string, category: string, sentiment: string, c: int, explanation: string)
    requires WellFormedValue(relevant) && WellFormedValue(category) && WellFormedValue(sentiment)
    requires WellFormedValue(explanation)
    ensures DecideAction(Parse(FormatReply(ReplyKeys(), [relevant, category, sentiment, ShowInt(c), explanation]))) ==
            if relevant != "Yes" then NotMarketRelevant
            else if c < CONFIDENCE_THRESHOLD then LowConfidence
            else RuleTable(Some(category), Some(sentiment))
  {
    var keys := ReplyKeys();
    var values := [relevant, category, sentiment, ShowInt(c), explanation];
    ReplyKeysWellFormed();
    ShowIntWellFormed(c);
    ParseFormatReply(keys, values);
    var m := Parse(FormatReply(keys, values));
    assert keys[0] == "MarketRelevant" && keys[1] == "Category" && keys[2] == "Sentiment" && keys[3] == "Confidence";
    assert keys[0] in m && keys[1] in m && keys[2] in m && keys[3] in m;
    assert m["MarketRelevant"] == relevant && m["Category"] == category;
    assert m["Sentiment"] == sentiment && m["Confidence"] == ShowInt(c);
    ParseShowInt(c);
  }

  /** The reply for a confident negative monetary-policy headline sells bonds. */
  lemma ReplyExample()
    ensures DecideActionText(Parse(FormatReply(ReplyKeys(), ["Yes", "MonetaryPolicy", "Negative", ShowInt(90), "Rates up"])))
            == "SELL BONDS (Paper Trade)"
  {
    ReplyDecides("Yes", "MonetaryPolicy", "Negative", 90, "Rates up");
  }
}
