/**
 * Feed specifications and the split of a run's feeds into CEX labels (sent to the
 * price-fetch process) and DEX labels (looked up in the DEX pair table).
 */
module Feeds {

  /** One monitored market, as read from the feed-definition file. */
  datatype FeedSpec = FeedSpec(
    pair: string,
    feedLabel: string,
    interval: int,
    deviation: int,
    source: string,
    calculation: string,
    status: string,
    feedType: string)

  /** Index of the first dash in `s`. */
  function FirstDash(s: string): (k: nat)
    requires '-' in s
    ensures k < |s| && s[k] == '-' && '-' !in s[..k]
  {
    if s[0] == '-' then 0
    else
      assert s == [s[0]] + s[1..];
      var k := FirstDash(s[1..]) + 1;
      assert s[..k] == [s[0]] + s[1..][..k - 1];
      k
  }

  /** `label.replace("-", "/", 1)`: only the first dash of a CEX label becomes a slash. */
  function ReplaceFirstDash(s: string): (r: string)
    ensures |r| == |s|
    ensures '-' !in s ==> r == s
  {
    if s == [] then []
    else if s[0] == '-' then "/" + s[1..]
    else
      assert s == [s[0]] + s[1..];
      [s[0]] + ReplaceFirstDash(s[1..])
  }

  /** Past a first character that is not a dash, the first dash is the tail's first dash, one further on. */
  lemma FirstDashOfTail(s: string)
    requires '-' in s && s[0] != '-'
    ensures '-' in s[1..]
    ensures FirstDash(s) == FirstDash(s[1..]) + 1
    ensures s[..FirstDash(s)] == [s[0]] + s[1..][..FirstDash(s[1..])]
    ensures s[FirstDash(s) + 1..] == s[1..][FirstDash(s[1..]) + 1..]
  {
    assert s == [s[0]] + s[1..];
  }

  /** The rewrite keeps everything around the first dash and puts a slash in its place. */
  lemma {:induction false} ReplaceFirstDashSplits(s: string)
    requires '-' in s
    ensures ReplaceFirstDash(s) == s[..FirstDash(s)] + "/" + s[FirstDash(s) + 1..]
    decreases |s|
  {
    if s[0] == '-' {
      assert s[..0] == [];
    } else {
      var t := s[1..];
      FirstDashOfTail(s);
      ReplaceFirstDashSplits(t);
      var k := FirstDash(t);
      calc {
        ReplaceFirstDash(s);
        [s[0]] + ReplaceFirstDash(t);
        [s[0]] + (t[..k] + "/" + t[k + 1..]);
        ([s[0]] + t[..k]) + "/" + t[k + 1..];
      }
    }
  }

  /** The worked example: `A-B-C` becomes `A/B-C`. */
  lemma ReplaceFirstDashExample()
    ensures ReplaceFirstDash("A-B-C") == "A/B-C"
  {
    assert FirstDash("A-B-C") == 1;
  }

  /** The label a feed contributes to its group: CEX labels are rewritten, others kept. */
  function SubmittedLabel(f: FeedSpec): string
  {
    if f.source == "cex" then ReplaceFirstDash(f.feedLabel) else f.feedLabel
  }

  /** The labels of the feeds whose source is `source`, in feed order. */
  function LabelsOf(feeds: seq<FeedSpec>, source: string): seq<string>
  {
    if feeds == [] then []
    else
      var last := feeds[|feeds| - 1];
      LabelsOf(feeds[..|feeds| - 1], source) + (if last.source == source then [SubmittedLabel(last)] else [])
  }

  /** The number of feeds whose source is `source`. */
  function CountSource(feeds: seq<FeedSpec>, source: string): nat
  {
    if feeds == [] then 0
    else CountSource(feeds[..|feeds| - 1], source) + (if feeds[|feeds| - 1].source == source then 1 else 0)
  }

  /**
   * The partition loop of `fetch_and_send`: a CEX feed appends its rewritten label
   * to the CEX list, a DEX feed its label to the DEX list, any other source nothing.
   */
  method PartitionFeeds(feeds: seq<FeedSpec>) returns (cex: seq<string>, dex: seq<string>)
    ensures cex == LabelsOf(feeds, "cex")
    ensures dex == LabelsOf(feeds, "dex")
  {
    cex, dex := [], [];
    for i := 0 to |feeds|
      invariant cex == LabelsOf(feeds[..i], "cex")
      invariant dex == LabelsOf(feeds[..i], "dex")
    {
      var feed := feeds[i];
      assert feeds[..i + 1][..i] == feeds[..i];
      if feed.source == "cex" {
        cex := cex + [ReplaceFirstDash(feed.feedLabel)];
        continue;
      }
      if feed.source == "dex" {
        dex := dex + [feed.feedLabel];
      }
    }
    assert feeds[..|feeds|] == feeds;
  }

  lemma {:induction false} LabelsOfAppend(a: seq<FeedSpec>, b: seq<FeedSpec>, source: string)
    ensures LabelsOf(a + b, source) == LabelsOf(a, source) + LabelsOf(b, source)
    ensures CountSource(a + b, source) == CountSource(a, source) + CountSource(b, source)
    decreases |b|
  {
    if b == [] {
      assert a + b == a;
    } else {
      var b' := b[..|b| - 1];
      assert (a + b)[..|a + b| - 1] == a + b';
      assert (a + b)[|a + b| - 1] == b[|b| - 1];
      LabelsOfAppend(a, b', source);
    }
  }

  /** Each group holds exactly one label per feed of its source. */
  lemma {:induction false} LabelsOfLength(feeds: seq<FeedSpec>, source: string)
    ensures |LabelsOf(feeds, source)| == CountSource(feeds, source)
    decreases |feeds|
  {
    if feeds != [] {
      LabelsOfLength(feeds[..|feeds| - 1], source);
    }
  }

  /**
   * Order is kept within a group: the feed at position `i` of source `source`
   * contributes its label at position "number of earlier feeds of that source".
   */
  lemma PartitionPosition(feeds: seq<FeedSpec>, i: nat, source: string)
    requires i < |feeds| && feeds[i].source == source
    ensures CountSource(feeds[..i], source) < |LabelsOf(feeds, source)|
    ensures LabelsOf(feeds, source)[CountSource(feeds[..i], source)] == SubmittedLabel(feeds[i])
  {
    var one := [feeds[i]];
    assert feeds == feeds[..i] + one + feeds[i + 1..];
    LabelsOfAppend(feeds[..i] + one, feeds[i + 1..], source);
    LabelsOfAppend(feeds[..i], one, source);
    assert one[..0] == [];
    assert LabelsOf(one, source) == [SubmittedLabel(feeds[i])];
    LabelsOfLength(feeds[..i], source);
  }

  /** A CEX feed's label appears in the CEX list with only its first dash turned into a slash. */
  lemma CexLabelPosition(feeds: seq<FeedSpec>, i: nat)
    requires i < |feeds| && feeds[i].source == "cex"
    ensures CountSource(feeds[..i], "cex") < |LabelsOf(feeds, "cex")|
    ensures LabelsOf(feeds, "cex")[CountSource(feeds[..i], "cex")] == ReplaceFirstDash(feeds[i].feedLabel)
  {
    PartitionPosition(feeds, i, "cex");
  }

  /** A DEX feed's label appears in the DEX list unchanged. */
  lemma DexLabelPosition(feeds: seq<FeedSpec>, i: nat)
    requires i < |feeds| && feeds[i].source == "dex"
    ensures CountSource(feeds[..i], "dex") < |LabelsOf(feeds, "dex")|
    ensures LabelsOf(feeds, "dex")[CountSource(feeds[..i], "dex")] == feeds[i].feedLabel
  {
    PartitionPosition(feeds, i, "dex");
  }

  /** Removing a feed of another source leaves the `source` group unchanged. */
  lemma {:induction false} RemoveOtherSource(feeds: seq<FeedSpec>, i: nat, source: string)
    requires i < |feeds| && feeds[i].source != source
    ensures LabelsOf(feeds, source) == LabelsOf(feeds[..i] + feeds[i + 1..], source)
  {
    var one := [feeds[i]];
    assert feeds == feeds[..i] + one + feeds[i + 1..];
    assert one[..0] == [];
    assert LabelsOf(one, source) == [];
    LabelsOfAppend(feeds[..i] + one, feeds[i + 1..], source);
    LabelsOfAppend(feeds[..i], one, source);
    LabelsOfAppend(feeds[..i], feeds[i + 1..], source);
  }

  /** A feed whose source is neither `cex` nor `dex` leaves both lists as they would be without it. */
  lemma OtherSourceDropped(feeds: seq<FeedSpec>, i: nat)
    requires i < |feeds| && feeds[i].source != "cex" && feeds[i].source != "dex"
    ensures LabelsOf(feeds, "cex") == LabelsOf(feeds[..i] + feeds[i + 1..], "cex")
    ensures LabelsOf(feeds, "dex") == LabelsOf(feeds[..i] + feeds[i + 1..], "dex")
  {
    RemoveOtherSource(feeds, i, "cex");
    RemoveOtherSource(feeds, i, "dex");
  }
}
