/**
 * The shape shared by the page crawlers' `parse_posts` loops: each element
 * either yields a candidate post or is skipped by checks of its own, and a
 * `seen_urls` set keeps only the first kept post for each URL, in document
 * order. Skipping never depends on `seen_urls`, so the loop's result is
 * `DedupFirst(Collect(elements, candidate))`.
 */
module Listing {
  import opened Wrappers
  import opened Crawler

  /** The candidates of the elements, in order; skipped elements give nothing. */
  function Collect<E>(es: seq<E>, candidate: E -> Option<Post>): (ps: seq<Post>)
    ensures |ps| <= |es|
  {
    if es == [] then []
    else
      var init := Collect(es[..|es| - 1], candidate);
      match candidate(es[|es| - 1])
      case Some(p) => init + [p]
      case None => init
  }

  /** Every collected post is the candidate of some element. */
  lemma {:induction false} CollectFrom<E>(es: seq<E>, candidate: E -> Option<Post>, p: Post)
    requires p in Collect(es, candidate)
    ensures exists i :: 0 <= i < |es| && candidate(es[i]) == Some(p)
  {
    var init := es[..|es| - 1];
    if p in Collect(init, candidate) {
      CollectFrom(init, candidate, p);
      var i :| 0 <= i < |init| && candidate(init[i]) == Some(p);
      assert es[i] == init[i];
    } else {
      assert candidate(es[|es| - 1]) == Some(p);
    }
  }

  function Urls(ps: seq<Post>): set<string> {
    set i | 0 <= i < |ps| :: ps[i].url
  }

  /** The posts `seen_urls` lets through: a post is dropped when a post
      already kept has its URL. */
  function DedupFirst(ps: seq<Post>): (r: seq<Post>)
    ensures |r| <= |ps|
  {
    if ps == [] then []
    else
      var init := DedupFirst(ps[..|ps| - 1]);
      if ps[|ps| - 1].url in Urls(init) then init else init + [ps[|ps| - 1]]
  }

  predicate DistinctUrls(ps: seq<Post>) {
    forall i, j :: 0 <= i < j < |ps| ==> ps[i].url != ps[j].url
  }

  /** Position `i` holds the first post with its URL. */
  predicate IsFirst(ps: seq<Post>, i: nat)
    requires i < |ps|
  {
    forall j :: 0 <= j < i ==> ps[j].url != ps[i].url
  }

  /** The elements of `s` whose flag in `keep` is set, in order: an
      order-preserving subsequence. */
  function Select<T>(s: seq<T>, keep: seq<bool>): (r: seq<T>)
    requires |keep| == |s|
    ensures |r| <= |s|
    ensures forall x :: x in r ==> x in s
  {
    if s == [] then []
    else
      var init := Select(s[..|s| - 1], keep[..|s| - 1]);
      if keep[|s| - 1] then init + [s[|s| - 1]] else init
  }

  /** The first-occurrence flags of a list. */
  function FirstMask(ps: seq<Post>): (m: seq<bool>)
    ensures |m| == |ps|
    ensures forall i :: 0 <= i < |ps| ==> (m[i] <==> IsFirst(ps, i))
  {
    seq(|ps|, i requires 0 <= i < |ps| => IsFirst(ps, i))
  }

  /** Deduplication loses no URL. */
  lemma {:induction false} DedupUrls(ps: seq<Post>)
    ensures Urls(DedupFirst(ps)) == Urls(ps)
  {
    if ps != [] {
      var init := ps[..|ps| - 1];
      var last := ps[|ps| - 1];
      DedupUrls(init);
      var d := DedupFirst(init);
      assert Urls(ps) == Urls(init) + {last.url} by {
        forall u | u in Urls(ps) ensures u in Urls(init) + {last.url} {
          var i :| 0 <= i < |ps| && ps[i].url == u;
          if i < |init| { assert init[i] == ps[i]; }
        }
        forall u | u in Urls(init) ensures u in Urls(ps) {
          var i :| 0 <= i < |init| && init[i].url == u;
          assert ps[i] == init[i];
        }
      }
      if last.url !in Urls(d) {
        var d' := d + [last];
        assert Urls(d') == Urls(d) + {last.url} by {
          forall u | u in Urls(d') ensures u in Urls(d) + {last.url} {
            var i :| 0 <= i < |d'| && d'[i].url == u;
            if i < |d| { assert d'[i] == d[i]; }
          }
          forall u | u in Urls(d) ensures u in Urls(d') {
            var i :| 0 <= i < |d| && d[i].url == u;
            assert d'[i] == d[i];
          }
          assert d'[|d|] == last;
        }
      }
    }
  }

  /** The kept posts have pairwise distinct URLs. */
  lemma {:induction false} DedupDistinct(ps: seq<Post>)
    ensures DistinctUrls(DedupFirst(ps))
  {
    if ps != [] {
      var init := ps[..|ps| - 1];
      DedupDistinct(init);
      var d := DedupFirst(init);
      var last := ps[|ps| - 1];
      if last.url !in Urls(d) {
        forall i | 0 <= i < |d| ensures d[i].url != last.url {
          assert d[i].url in Urls(d);
        }
      }
    }
  }

  /** Deduplication keeps exactly the first post for each URL, in order: it
      selects the first-occurrence positions. */
  lemma {:induction false} DedupSelectsFirst(ps: seq<Post>)
    ensures DedupFirst(ps) == Select(ps, FirstMask(ps))
  {
    if ps != [] {
      var n := |ps| - 1;
      var init := ps[..n];
      DedupSelectsFirst(init);
      DedupUrls(init);
      assert FirstMask(ps)[..n] == FirstMask(init) by {
        forall i | 0 <= i < n ensures FirstMask(ps)[i] == FirstMask(init)[i] {
          assert IsFirst(ps, i) == IsFirst(init, i) by {
            forall j | 0 <= j < i ensures ps[j] == init[j] { }
            assert ps[i] == init[i];
          }
        }
      }
      var last := ps[n];
      assert last.url in Urls(init) <==> !IsFirst(ps, n) by {
        if last.url in Urls(init) {
          var j :| 0 <= j < n && init[j].url == last.url;
          assert ps[j] == init[j];
        }
        if !IsFirst(ps, n) {
          var j :| 0 <= j < n && ps[j].url == last.url;
          assert init[j] == ps[j];
        }
      }
    }
  }

  /** A URL that reached the candidates appears among the kept posts. */
  lemma DedupKeepsEveryUrl(ps: seq<Post>, i: nat)
    requires i < |ps|
    ensures exists k :: 0 <= k < |DedupFirst(ps)| && DedupFirst(ps)[k].url == ps[i].url
  {
    DedupUrls(ps);
    assert ps[i].url in Urls(ps);
  }

  /** One more element extends the candidates by its own candidate, if any. */
  lemma CollectStep<E>(es: seq<E>, i: nat, candidate: E -> Option<Post>)
    requires i < |es|
    ensures Collect(es[..i + 1], candidate) ==
      Collect(es[..i], candidate) + (match candidate(es[i]) case Some(p) => [p] case None => [])
  {
    assert es[..i + 1][..i] == es[..i];
  }

  /** One more candidate is kept exactly when its URL is new. */
  lemma DedupStep(ps: seq<Post>, p: Post)
    ensures DedupFirst(ps + [p]) ==
      if p.url in Urls(DedupFirst(ps)) then DedupFirst(ps) else DedupFirst(ps) + [p]
  {
    assert (ps + [p])[..|ps|] == ps;
  }

  lemma UrlsAppend(ps: seq<Post>, p: Post)
    ensures Urls(ps + [p]) == Urls(ps) + {p.url}
  {
    var q := ps + [p];
    forall u | u in Urls(q) ensures u in Urls(ps) + {p.url} {
      var i :| 0 <= i < |q| && q[i].url == u;
      if i < |ps| { assert q[i] == ps[i]; }
    }
    forall u | u in Urls(ps) ensures u in Urls(q) {
      var i :| 0 <= i < |ps| && ps[i].url == u;
      assert q[i] == ps[i];
    }
    assert q[|ps|] == p;
  }

  /** One iteration of a `parse_posts` loop: the element's candidate is
      kept exactly when it exists and its URL has not been seen. */
  lemma ListingStep<E>(es: seq<E>, i: nat, candidate: E -> Option<Post>, posts: seq<Post>)
    requires i < |es| && posts == DedupFirst(Collect(es[..i], candidate))
    ensures candidate(es[i]).None? ==> DedupFirst(Collect(es[..i + 1], candidate)) == posts
    ensures candidate(es[i]).Some? && candidate(es[i]).value.url in Urls(posts) ==>
      DedupFirst(Collect(es[..i + 1], candidate)) == posts
    ensures candidate(es[i]).Some? && candidate(es[i]).value.url !in Urls(posts) ==>
      DedupFirst(Collect(es[..i + 1], candidate)) == posts + [candidate(es[i]).value] &&
      Urls(posts + [candidate(es[i]).value]) == Urls(posts) + {candidate(es[i]).value.url}
  {
    CollectStep(es, i, candidate);
    var before := Collect(es[..i], candidate);
    match candidate(es[i])
    case None =>
      assert Collect(es[..i + 1], candidate) == before;
    case Some(p) =>
      assert Collect(es[..i + 1], candidate) == before + [p];
      DedupStep(before, p);
      UrlsAppend(posts, p);
  }

  /** `ListingStep` for a loop body that returns the post it keeps, if any. */
  lemma ListingVisit<E>(es: seq<E>, i: nat, candidate: E -> Option<Post>, posts: seq<Post>, post: Option<Post>)
    requires i < |es| && posts == DedupFirst(Collect(es[..i], candidate))
    requires var c := candidate(es[i]); post == if c.Some? && c.value.url !in Urls(posts) then c else None
    ensures post.None? ==> DedupFirst(Collect(es[..i + 1], candidate)) == posts
    ensures post.Some? ==>
      DedupFirst(Collect(es[..i + 1], candidate)) == posts + [post.value] &&
      Urls(posts + [post.value]) == Urls(posts) + {post.value.url}
  {
    ListingStep(es, i, candidate, posts);
  }

  /** Every post a listing keeps is the candidate of one of its elements. */
  lemma ListedFrom<E>(es: seq<E>, candidate: E -> Option<Post>, p: Post)
    requires p in DedupFirst(Collect(es, candidate))
    ensures exists i :: 0 <= i < |es| && candidate(es[i]) == Some(p)
  {
    var ps := Collect(es, candidate);
    DedupSelectsFirst(ps);
    CollectFrom(es, candidate, p);
  }
}
