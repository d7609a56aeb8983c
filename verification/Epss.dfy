/** The EPSS score cache: cached scores within their time to live, and the rest fetched in pages from a server
    that answers only the first hundred ids of any request. */
module Epss {
  import opened Prelude

  const PAGE_SIZE: nat := 100

  datatype Entry = Entry(score: real, fetched: int)

  type Cache = map<string, Entry>

  /** The scores the feed publishes at each moment. */
  type Feed = int -> map<string, real>

  /** A CVE the feed does not list has score zero. */
  function ScoreIn(listed: map<string, real>, c: string): real {
    if c in listed then listed[c] else 0.0
  }

  /** The feed lists c with this score, or does not list it and the score is zero. */
  predicate FeedSays(listed: map<string, real>, c: string, score: real) {
    (c in listed && score == listed[c]) || (c !in listed && score == 0.0)
  }

  /** The server's answer: the listed ones among the first hundred ids asked for. */
  function Answer(listed: map<string, real>, asked: seq<string>): map<string, real> {
    map i | 0 <= i < |asked| && i < PAGE_SIZE && asked[i] in listed :: asked[i] := listed[asked[i]]
  }

  predicate Fresh(cache: Cache, ttl: int, now: int, c: string) {
    c in cache && now - cache[c].fetched < ttl
  }

  /** The requested ids that must be fetched, in order, repetitions included. */
  function Missing(cache: Cache, ttl: int, now: int, cves: seq<string>, n: nat): seq<string>
    requires n <= |cves|
  {
    if n == 0 then []
    else
      var rest := Missing(cache, ttl, now, cves, n - 1);
      if Fresh(cache, ttl, now, cves[n - 1]) || cves[n - 1] == "" then rest else rest + [cves[n - 1]]
  }

  function Hits(cache: Cache, ttl: int, now: int, cves: seq<string>): set<string> {
    set c | c in cves && Fresh(cache, ttl, now, c)
  }

  /** Every cached score is the feed's at the time it was fetched, and no empty id is cached. */
  ghost predicate Honest(cache: Cache, feed: Feed) {
    "" !in cache && forall c <- cache :: cache[c].score == ScoreIn(feed(cache[c].fetched), c)
  }

  // ----- pages -----

  function PageEnd(total: nat, start: nat): nat {
    if start + PAGE_SIZE > total then total else start + PAGE_SIZE
  }

  /** For a request of at most one page, the server's truncation loses nothing. */
  lemma AnswerIsComplete(listed: map<string, real>, page: seq<string>, c: string)
    requires c in page && |page| <= PAGE_SIZE
    ensures ScoreIn(Answer(listed, page), c) == ScoreIn(listed, c)
    ensures FeedSays(listed, c, ScoreIn(listed, c))
  {
    var i :| 0 <= i < |page| && page[i] == c;
  }

  /** Whatever is served from an honest cache within its time to live was the feed's score within that time. */
  lemma ServedIsTrue(cache: Cache, feed: Feed, ttl: int, now: int, scores: map<string, real>)
    requires Honest(cache, feed)
    requires forall c <- scores :: Fresh(cache, ttl, now, c) && scores[c] == cache[c].score
    ensures forall c <- scores :: exists t :: now - ttl < t && FeedSays(feed(t), c, scores[c])
  {
    forall c <- scores ensures exists t :: now - ttl < t && FeedSays(feed(t), c, scores[c]) {
      var t := cache[c].fetched;
      assert now - ttl < t && FeedSays(feed(t), c, scores[c]);
    }
  }

  /** The server answers no more than a hundred ids: one asked for only after the first hundred gets nothing. */
  lemma AnswerIsTruncated(listed: map<string, real>, asked: seq<string>, c: string)
    ensures c in Answer(listed, asked) <==> c in listed && exists i :: 0 <= i < |asked| && i < 100 && asked[i] == c
    ensures c in Answer(listed, asked) ==> Answer(listed, asked)[c] == listed[c]
  {
  }

  lemma {:induction false} MissingElements(cache: Cache, ttl: int, now: int, cves: seq<string>, n: nat)
    requires n <= |cves|
    ensures Elements(Missing(cache, ttl, now, cves, n)) ==
            set c | c in cves[..n] && c != "" && !Fresh(cache, ttl, now, c)
  {
    if n > 0 {
      MissingElements(cache, ttl, now, cves, n - 1);
      assert cves[..n] == cves[..n - 1] + [cves[n - 1]];
      var rest := Missing(cache, ttl, now, cves, n - 1);
      assert Elements(rest + [cves[n - 1]]) == Elements(rest) + {cves[n - 1]};
    }
  }

  // ----- committed pages -----

  function Done(total: nat, n: nat): nat {
    if n * PAGE_SIZE > total then total else n * PAGE_SIZE
  }

  function PageAt(missing: seq<string>, n: nat): seq<string> {
    missing[Done(|missing|, n)..Done(|missing|, n + 1)]
  }

  /** The ids requested by the first n pages, in order. */
  function Requested(missing: seq<string>, n: nat): seq<string> {
    if n == 0 then [] else Requested(missing, n - 1) + PageAt(missing, n - 1)
  }

  /** The pages concatenate to exactly the missing list, and none exceeds what the server will answer. */
  lemma {:induction false} PagesCover(missing: seq<string>, n: nat)
    ensures Requested(missing, n) == missing[..Done(|missing|, n)]
    ensures |PageAt(missing, n)| <= PAGE_SIZE
    ensures n * PAGE_SIZE >= |missing| ==> Requested(missing, n) == missing
  {
    if n > 0 {
      PagesCover(missing, n - 1);
    }
  }

  function PageEntries(page: seq<string>, listed: map<string, real>, t: int): Cache {
    map c | c in page :: Entry(ScoreIn(listed, c), t)
  }

  function PageScores(page: seq<string>, listed: map<string, real>): map<string, real> {
    map c | c in page :: ScoreIn(listed, c)
  }

  function HitScores(cache: Cache, ttl: int, now: int, cves: seq<string>): map<string, real> {
    map c | c in cves && Fresh(cache, ttl, now, c) :: cache[c].score
  }

  /** Exactly the hits and the fetched ids are answered, each with the score now cached for it, which is within
      its time to live; a fetched id is stamped during this call; nothing else in the cache changed. */
  ghost predicate Committed(before: Cache, after: Cache, ttl: int, now: int, hits: set<string>, fetched: set<string>,
                            scores: map<string, real>) {
    && scores.Keys == hits + fetched
    && (forall c <- scores :: Fresh(after, ttl, now, c) && scores[c] == after[c].score)
    && (forall c <- fetched :: c in after && now <= after[c].fetched)
    && (forall c :: c !in fetched ==> (c in after <==> c in before) && (c in before ==> after[c] == before[c]))
  }

  /** The ids of the first n pages. */
  function FetchedIds(missing: seq<string>, n: nat): set<string> {
    Elements(missing[..Done(|missing|, n)])
  }

  lemma FetchedGrows(missing: seq<string>, n: nat)
    ensures FetchedIds(missing, n + 1) == FetchedIds(missing, n) + Elements(PageAt(missing, n))
  {
    var p, q := missing[..Done(|missing|, n)], PageAt(missing, n);
    assert missing[..Done(|missing|, n + 1)] == p + q;
    assert Elements(p + q) == Elements(p) + Elements(q);
  }

  lemma PageCommitted(before: Cache, mid: Cache, ttl: int, now: int, hits: set<string>, fetched: set<string>,
                      scores: map<string, real>, page: seq<string>, listed: map<string, real>, t: int)
    requires ttl > 0 && now <= t
    requires Committed(before, mid, ttl, now, hits, fetched, scores)
    ensures Committed(before, mid + PageEntries(page, listed, t), ttl, now, hits, fetched + Elements(page),
                      scores + PageScores(page, listed))
  {
    var entries, more := PageEntries(page, listed, t), PageScores(page, listed);
    var after, scores' := mid + entries, scores + more;
    assert entries.Keys == more.Keys == Elements(page);
    forall c | c in scores' ensures Fresh(after, ttl, now, c) && scores'[c] == after[c].score {
      if c in more {
        assert after[c] == Entry(ScoreIn(listed, c), t);
      } else {
        assert after[c] == mid[c];
      }
    }
  }

  lemma PageStaysHonest(cache: Cache, page: seq<string>, feed: Feed, t: int)
    requires Honest(cache, feed) && "" !in page
    ensures Honest(cache + PageEntries(page, feed(t), t), feed)
  {
  }

  lemma NothingCommitted(cache: Cache, ttl: int, now: int, cves: seq<string>, missing: seq<string>)
    ensures Committed(cache, cache, ttl, now, Hits(cache, ttl, now, cves), FetchedIds(missing, 0),
                      HitScores(cache, ttl, now, cves))
  {
    assert FetchedIds(missing, 0) == {};
  }

  // ----- the provider -----

  datatype Reply = Reply(scores: map<string, real>, failed: bool)

  class Provider {
    const ttl: int
    /** What the server publishes. */
    const feed: Feed
    var cache: Cache

    ghost predicate Valid()
      reads this
    {
      ttl > 0 && Honest(cache, feed)
    }

    constructor (ttl: int, feed: Feed)
      ensures Valid() && cache == map[] && this.feed == feed
      ensures this.ttl == if ttl <= 0 then 6 * 3600 else ttl
    {
      this.ttl := if ttl <= 0 then 6 * 3600 else ttl;
      this.feed := feed;
      cache := map[];
    }

    /** The scores asked for at time now. The n-th page is fetched at clock(n), and fails if broken(n). */
    method Scores(cves: seq<string>, now: int, clock: nat -> int, broken: nat -> bool)
      returns (reply: Reply)
      requires Valid()
      requires forall n :: now <= clock(n)
      modifies this
      ensures Valid()
      ensures var missing := Missing(old(cache), ttl, now, cves, |cves|);
        exists n: nat ::
          && (forall k: nat :: k < n ==> !broken(k))
          && (reply.failed <==> n * PAGE_SIZE < |missing| && broken(n))
          && (!reply.failed ==> Done(|missing|, n) == |missing|)
          && Committed(old(cache), cache, ttl, now, Hits(old(cache), ttl, now, cves), FetchedIds(missing, n),
                       reply.scores)
      ensures !reply.failed ==> reply.scores.Keys == set c | c in cves && c != ""
      ensures forall c <- reply.scores :: exists t :: now - ttl < t && FeedSays(feed(t), c, reply.scores[c])
    {
      var hits, missing := Split(cves, now);
      ghost var before := cache;
      ghost var hitIds := Hits(before, ttl, now, cves);
      NoEmptyId(before, ttl, now, cves);
      NothingCommitted(before, ttl, now, cves, missing);
      var out, failed, start := hits, false, 0;
      ghost var n: nat := 0;
      while start < |missing|
        invariant Valid() && start == Done(|missing|, n)
        invariant forall k: nat :: k < n ==> !broken(k)
        invariant Committed(before, cache, ttl, now, hitIds, FetchedIds(missing, n), out)
        decreases |missing| - start
      {
        PageBounds(|missing|, n);
        if broken(start / PAGE_SIZE) {
          ServedIsTrue(cache, feed, ttl, now, out);
          return Reply(out, true);
        }
        out, start := FetchPage(before, hitIds, now, missing, n, start, clock(start / PAGE_SIZE), out);
        n := n + 1;
      }
      AllAnswered(before, ttl, now, cves, n);
      ServedIsTrue(cache, feed, ttl, now, out);
      return Reply(out, false);
    }

    /** One page that arrives: requested, answered and committed. */
    method FetchPage(ghost before: Cache, ghost hitIds: set<string>, ghost now: int, missing: seq<string>, ghost n: nat,
                     start: nat, t: int, out: map<string, real>)
      returns (out': map<string, real>, end: nat)
      requires Valid() && "" !in missing && now <= t
      requires start == Done(|missing|, n) < |missing|
      requires Committed(before, cache, ttl, now, hitIds, FetchedIds(missing, n), out)
      modifies this
      ensures Valid() && end == Done(|missing|, n + 1)
      ensures Committed(before, cache, ttl, now, hitIds, FetchedIds(missing, n + 1), out')
    {
      PageBounds(|missing|, n);
      end := PageEnd(|missing|, start);
      var page := missing[start..end];
      PageStaysHonest(cache, page, feed, t);
      PageCommitted(before, cache, ttl, now, hitIds, FetchedIds(missing, n), out, page, feed(t), t);
      FetchedGrows(missing, n);
      out' := CommitPage(page, out, t, Answer(feed(t), page));
    }

    /** The first loop: cached scores are served, the other ids set aside. */
    method Split(cves: seq<string>, now: int) returns (out: map<string, real>, missing: seq<string>)
      ensures missing == Missing(cache, ttl, now, cves, |cves|)
      ensures out == HitScores(cache, ttl, now, cves)
    {
      out, missing := map[], [];
      for i := 0 to |cves|
        invariant missing == Missing(cache, ttl, now, cves, i)
        invariant out == HitScores(cache, ttl, now, cves[..i])
      {
        var c := cves[i];
        assert cves[..i + 1] == cves[..i] + [c];
        if c in cache && now - cache[c].fetched < ttl {
          out := out[c := cache[c].score];
        } else if c != "" {
          missing := missing + [c];
        }
      }
      assert cves[..|cves|] == cves;
    }

    method CommitPage(page: seq<string>, out: map<string, real>, t: int, fetched: map<string, real>)
      returns (out': map<string, real>)
      requires |page| <= PAGE_SIZE && fetched == Answer(feed(t), page)
      modifies this
      ensures out' == out + PageScores(page, feed(t))
      ensures cache == old(cache) + PageEntries(page, feed(t), t)
    {
      out' := out;
      for i := 0 to |page|
        invariant out' == out + PageScores(page[..i], feed(t))
        invariant cache == old(cache) + PageEntries(page[..i], feed(t), t)
      {
        assert page[..i + 1] == page[..i] + [page[i]];
        AnswerIsComplete(feed(t), page, page[i]);
        PageSnoc(old(cache), out, page[..i], feed(t), t, page[i]);
        out' := CommitOne(page[i], out', t, fetched);
      }
      assert page[..|page|] == page;
    }

    method CommitOne(c: string, out: map<string, real>, t: int, fetched: map<string, real>)
      returns (out': map<string, real>)
      modifies this
      ensures out' == out[c := ScoreIn(fetched, c)]
      ensures cache == old(cache)[c := Entry(ScoreIn(fetched, c), t)]
    {
      var score := ScoreIn(fetched, c);
      cache := cache[c := Entry(score, t)];
      out' := out[c := score];
    }
  }

  lemma PageBounds(total: nat, n: nat)
    requires Done(total, n) < total
    ensures var start := Done(total, n);
      start == n * PAGE_SIZE && start / PAGE_SIZE == n && PageEnd(total, start) == Done(total, n + 1)
  {
  }

  lemma PageSnoc(cache: Cache, out: map<string, real>, page: seq<string>, listed: map<string, real>, t: int, c: string)
    ensures (cache + PageEntries(page, listed, t))[c := Entry(ScoreIn(listed, c), t)] ==
            cache + PageEntries(page + [c], listed, t)
    ensures (out + PageScores(page, listed))[c := ScoreIn(listed, c)] == out + PageScores(page + [c], listed)
  {
  }

  lemma NoEmptyId(cache: Cache, ttl: int, now: int, cves: seq<string>)
    ensures "" !in Missing(cache, ttl, now, cves, |cves|)
  {
    MissingElements(cache, ttl, now, cves, |cves|);
    assert "" !in Elements(Missing(cache, ttl, now, cves, |cves|));
  }

  lemma AllAnswered(cache: Cache, ttl: int, now: int, cves: seq<string>, n: nat)
    requires "" !in cache
    requires var missing := Missing(cache, ttl, now, cves, |cves|); Done(|missing|, n) == |missing|
    ensures Hits(cache, ttl, now, cves) + FetchedIds(Missing(cache, ttl, now, cves, |cves|), n) ==
            set c | c in cves && c != ""
  {
    var missing := Missing(cache, ttl, now, cves, |cves|);
    MissingElements(cache, ttl, now, cves, |cves|);
    assert cves[..|cves|] == cves && missing[..|missing|] == missing;
  }

  /** A fresh score of an honest cache is what the feed said within the time to live; if the feed does not
      change it is what the feed says. */
  lemma FreshScoreIsTrue(cache: Cache, feed: Feed, ttl: int, now: int, c: string)
    requires Honest(cache, feed) && Fresh(cache, ttl, now, c)
    ensures exists t :: now - ttl < t && FeedSays(feed(t), c, cache[c].score)
    ensures (forall s, t :: feed(s) == feed(t)) ==> FeedSays(feed(now), c, cache[c].score)
  {
    var t := cache[c].fetched;
    assert now - ttl < t && FeedSays(feed(t), c, cache[c].score);
  }
}
