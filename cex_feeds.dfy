/**
 * The CEX path: the price-fetch process is asked for one label at a time, in a
 * random permutation of the CEX labels, and its JSON output is reduced to the
 * entry for that label.
 */
module CexFeeds {
  import opened JsonValue

  /** How one run of the price-fetch process for a label ended. */
  datatype GoferOutcome =
    | ProcessFailed          // non-zero exit status
    | Undecodable            // standard output is text, but not JSON
    | Decoded(stdout: Value) // standard output decoded as JSON

  /** What `fetch_cex_data` hands back: a value, or the exception it lets escape. */
  datatype Fetched = Data(value: Value) | Raised

  /**
   * `fetch_cex_data`: a failed process and output that is not JSON both give `{}`; a
   * decoded dict gives the entry for the label, or null when it has none; a
   * decoded value that is not a dict makes `.get` raise.
   */
  function FetchCexData(feed: string, g: GoferOutcome): (r: Fetched)
    ensures r.Raised? <==> g.Decoded? && !g.stdout.Obj?
    ensures r.Data? && Truthy(r.value) <==>
      g.Decoded? && g.stdout.Obj? && feed in g.stdout.fields && Truthy(g.stdout.fields[feed])
    ensures r.Data? && Truthy(r.value) ==> r.value == g.stdout.fields[feed]
  {
    match g
    case ProcessFailed => Data(Obj(map[]))
    case Undecodable => Data(Obj(map[]))
    case Decoded(stdout) =>
      match stdout
      case Obj(fields) => Data(if feed in fields then fields[feed] else Null)
      case _ => Raised
  }

  /**
   * `random.sample(feeds, len(feeds))`: each step removes an arbitrary remaining
   * label and appends it, so the result is some permutation of the input.
   */
  method Sample<T>(xs: seq<T>) returns (p: seq<T>)
    ensures multiset(p) == multiset(xs)
  {
    p := [];
    var rest := xs;
    while rest != []
      invariant multiset(p) + multiset(rest) == multiset(xs)
      decreases |rest|
    {
      var i :| 0 <= i < |rest|;
      assert rest == rest[..i] + [rest[i]] + rest[i + 1..];
      p := p + [rest[i]];
      rest := rest[..i] + rest[i + 1..];
    }
  }
}
