/** Client configuration: the set-once list of PEP daemon endpoints, the
    builder that collects endpoints before building a configuration, and the
    INI parser's splitting of the `pepds` property into endpoints. */
module Config {
  import opened Lang
  import Tokenizer
  import opened InformationPoints

  /** The configuration's endpoint field: null until first set, then an
      unmodifiable view of the list it was set with. */
  datatype Endpoints = Unset | ReadOnly(urls: seq<string>)

  /** A PEP client configuration. `pips` are the policy information points
      the base configuration holds; a null entry is kept, as in a Java list. */
  datatype Configuration = Configuration(endpoints: Endpoints, pips: seq<Option<InformationPoint>>)

  /** `new PEPClientConfiguration()`, populated with the given PIPs. */
  function NewConfiguration(pips: seq<Option<InformationPoint>>): (c: Configuration)
    ensures GetPepDaemonEndpoints(c).None?
    ensures c.pips == pips
  {
    Configuration(Unset, pips)
  }

  /** `getPepDaemonEndpoints`: null before the endpoints are set. */
  function GetPepDaemonEndpoints(c: Configuration): (r: Option<seq<string>>)
    ensures r.None? <==> c.endpoints.Unset?
    ensures r.Some? ==> r.value == c.endpoints.urls
  {
    match c.endpoints
    case Unset => None
    case ReadOnly(urls) => Some(urls)
  }

  const ALREADY_SET: string := "PEP daemon endpoints have already been set, they may not be changed"

  /** `setPepDaemonEndpoints`: a null or empty list is ignored; the first
      non-empty list is stored; any later non-empty list throws and changes
      nothing. The source keeps a read-only view of the caller's list; the
      model keeps its contents at the time of the call. */
  function SetPepDaemonEndpoints(c: Configuration, endpoints: Option<seq<string>>): (e: Effect<Configuration>)
    ensures e.after.pips == c.pips
    ensures e.thrown.Some? <==> endpoints.Some? && endpoints.value != [] && c.endpoints.ReadOnly?
    ensures e.thrown.Some? ==> e.thrown == Some(IllegalState(ALREADY_SET))
    ensures c.endpoints.ReadOnly? ==> e.after == c
    ensures c.endpoints.Unset? ==>
              e.after.endpoints == (if endpoints.Some? && endpoints.value != [] then ReadOnly(endpoints.value) else Unset)
  {
    if endpoints.None? || |endpoints.value| == 0 then Effect(c, None)
    else if c.endpoints.ReadOnly? then Effect(c, Some(IllegalState(ALREADY_SET)))
    else Effect(c.(endpoints := ReadOnly(endpoints.value)), None)
  }

  /** The configuration after `setPepDaemonEndpoints` is called with each
      argument in turn, each thrown exception being caught. */
  function ApplySets(c: Configuration, calls: seq<Option<seq<string>>>): Configuration
    decreases |calls|
  {
    if calls == [] then c else ApplySets(SetPepDaemonEndpoints(c, calls[0]).after, calls[1..])
  }

  /** The first non-null, non-empty list among the calls, if any. */
  function FirstNonEmpty(calls: seq<Option<seq<string>>>): (r: Option<seq<string>>)
    ensures r.Some? ==> r.value != [] && exists i :: 0 <= i < |calls| && calls[i] == r
    ensures r.None? ==> forall i :: 0 <= i < |calls| ==> calls[i].None? || calls[i].value == []
  {
    if calls == [] then None
    else if calls[0].Some? && calls[0].value != [] then calls[0]
    else
      var r := FirstNonEmpty(calls[1..]);
      assert r.Some? ==> calls[1..][1..] == calls[2..] && r.value != [];
      if r.Some? then
        var j :| 0 <= j < |calls[1..]| && calls[1..][j] == r;
        assert calls[j + 1] == r;
        r
      else r
  }

  /** Set-once: whatever sequence of calls is made, once the field is set no
      later call replaces it, and an unset field ends up holding the first
      non-empty list given. */
  lemma {:induction false} SetOnce(c: Configuration, calls: seq<Option<seq<string>>>)
    ensures c.endpoints.ReadOnly? ==> ApplySets(c, calls) == c
    ensures c.endpoints.Unset? ==>
              ApplySets(c, calls).endpoints == (match FirstNonEmpty(calls) case None => Unset case Some(urls) => ReadOnly(urls))
    ensures ApplySets(c, calls).pips == c.pips
    decreases |calls|
  {
    if calls != [] {
      var next := SetPepDaemonEndpoints(c, calls[0]).after;
      SetOnce(next, calls[1..]);
    }
  }

  /** A configuration builder. `shared` marks an endpoint list adopted from a
      prototype configuration, which is that configuration's unmodifiable
      view. */
  datatype Builder = Builder(endpoints: seq<string>, shared: bool)

  /** `new PEPClientConfigurationBuilder()`: an empty, modifiable list. */
  function NewBuilder(): (b: Builder)
    ensures b.endpoints == [] && !b.shared
  {
    Builder([], false)
  }

  /** `new PEPClientConfigurationBuilder(prototype)`: the prototype's own
      endpoint list, or a new empty list when it has none; a null prototype
      throws on the call to its getter. */
  function BuilderFrom(prototype: Option<Configuration>): (r: Outcome<Builder>)
    ensures prototype.None? <==> r == Failure(NullPointer)
    ensures r.Failure? ==> prototype.None?
    ensures prototype.Some? && GetPepDaemonEndpoints(prototype.value).None? ==> r == Success(NewBuilder())
    ensures prototype.Some? && GetPepDaemonEndpoints(prototype.value).Some? ==>
              r.Success? && r.value.endpoints == GetPepDaemonEndpoints(prototype.value).value && r.value.shared
  {
    match prototype
    case None => Failure(NullPointer)
    case Some(c) =>
      match GetPepDaemonEndpoints(c)
      case None => Success(NewBuilder())
      case Some(urls) => Success(Builder(urls, true))
  }

  /** `getPepDaemonEndpoints().add(url)` on a builder: the live list grows by
      one, unless it is a prototype's unmodifiable view. */
  function AddEndpoint(b: Builder, url: string): (e: Effect<Builder>)
    ensures e.thrown.None? <==> !b.shared
    ensures e.thrown.None? ==> e.after == b.(endpoints := b.endpoints + [url])
    ensures e.thrown.Some? ==> e.after == b && e.thrown == Some(UnsupportedOperation)
  {
    if b.shared then Effect(b, Some(UnsupportedOperation))
    else Effect(b.(endpoints := b.endpoints + [url]), None)
  }

  /** `build` as written: the endpoints are added to the new configuration's
      own list, which is still null (and, once set, would be unmodifiable), so
      every build throws before returning a configuration. */
  function Build(b: Builder, pips: seq<Option<InformationPoint>>): (r: Outcome<Configuration>)
    ensures r == Failure(NullPointer)
  {
    var config := NewConfiguration(pips);
    match GetPepDaemonEndpoints(config)
    case None => Failure(NullPointer)
    case Some(_) => Failure(UnsupportedOperation)
  }

  /** `build` as intended: the builder's endpoints handed to the set-once
      setter of a fresh configuration. */
  function BuildIntended(b: Builder, pips: seq<Option<InformationPoint>>): (r: Configuration)
    ensures r.pips == pips
    ensures b.endpoints == [] ==> r.endpoints.Unset?
    ensures b.endpoints != [] ==> r.endpoints == ReadOnly(b.endpoints)
  {
    SetPepDaemonEndpoints(NewConfiguration(pips), Some(b.endpoints)).after
  }

  /** A builder made from a built configuration holds the endpoints the
      configuration was built from. */
  lemma BuildRoundTrip(b: Builder, pips: seq<Option<InformationPoint>>)
    ensures BuilderFrom(Some(BuildIntended(b, pips))).Success?
    ensures BuilderFrom(Some(BuildIntended(b, pips))).value.endpoints == b.endpoints
  {
  }

  /** The only separator of the `pepds` property. */
  const PEPDS_DELIMITERS: set<char> := {' '}

  /** The endpoints a `pepds` value lists: its maximal runs of non-space
      characters, in order. */
  function PepdsEndpoints(pepds: string): (r: seq<string>)
    ensures forall i :: 0 <= i < |r| ==> r[i] != [] && Tokenizer.Free(r[i], PEPDS_DELIMITERS)
  {
    Tokenizer.Tokenize(pepds, PEPDS_DELIMITERS)
  }

  /** The `pepds` loop of `processClientConfiguration`: each endpoint in turn
      is added to the builder's live list. A null value cannot be tokenised. */
  method ProcessPepds(b: Builder, pepds: Option<string>) returns (after: Builder, thrown: Option<Exception>)
    ensures pepds.None? ==> after == b && thrown == Some(NullPointer)
    ensures pepds.Some? && !b.shared ==>
              thrown.None? && after == b.(endpoints := b.endpoints + PepdsEndpoints(pepds.value))
    ensures pepds.Some? && b.shared ==>
              after == b && (thrown.None? <==> PepdsEndpoints(pepds.value) == [])
              && (thrown.Some? ==> thrown == Some(UnsupportedOperation))
  {
    if pepds.None? {
      return b, Some(NullPointer);
    }
    var tokens := PepdsEndpoints(pepds.value);
    after, thrown := b, None;
    var i := 0;
    while i < |tokens| && thrown.None?
      invariant 0 <= i <= |tokens|
      invariant !b.shared ==> thrown.None? && after == b.(endpoints := b.endpoints + tokens[..i])
      invariant b.shared ==> after == b && (thrown.None? <==> i == 0)
      invariant thrown.Some? ==> thrown == Some(UnsupportedOperation)
    {
      var e := AddEndpoint(after, tokens[i]);
      assert tokens[..i + 1] == tokens[..i] + [tokens[i]];
      after, thrown := e.after, e.thrown;
      i := i + 1;
    }
    assert tokens[..|tokens|] == tokens;
  }

  /** With the parser's fresh builder, the endpoints are exactly those the
      `pepds` value lists. */
  method ParsePepds(pepds: string) returns (endpoints: seq<string>)
    ensures endpoints == PepdsEndpoints(pepds)
    ensures forall i :: 0 <= i < |endpoints| ==> endpoints[i] != [] && ' ' !in endpoints[i]
  {
    var b, thrown := ProcessPepds(NewBuilder(), Some(pepds));
    endpoints := b.endpoints;
    forall i | 0 <= i < |endpoints| ensures ' ' !in endpoints[i] {
      assert Tokenizer.Free(endpoints[i], PEPDS_DELIMITERS);
    }
  }

  /** Only spaces are dropped: every other character of the value, tabs
      included, is found in the endpoints, in order. */
  lemma PepdsKeepsOtherChars(pepds: string)
    ensures Tokenizer.Concat(PepdsEndpoints(pepds)) == Tokenizer.Without(pepds, PEPDS_DELIMITERS)
  {
    Tokenizer.TokenizeKeepsOtherChars(pepds, PEPDS_DELIMITERS);
  }

  /** An empty or all-space value lists no endpoints. */
  lemma PepdsAllSpaces(pepds: string)
    requires forall k :: 0 <= k < |pepds| ==> pepds[k] == ' '
    ensures PepdsEndpoints(pepds) == []
  {
    Tokenizer.TokenizeDelimitersOnly(pepds, PEPDS_DELIMITERS);
  }

  /** Endpoints written out separated by single spaces are read back as they
      were written. */
  lemma PepdsJoin(urls: seq<string>)
    requires forall i :: 0 <= i < |urls| ==> urls[i] != [] && ' ' !in urls[i]
    ensures PepdsEndpoints(Tokenizer.Join(urls, ' ')) == urls
  {
    forall i | 0 <= i < |urls| ensures Tokenizer.Free(urls[i], PEPDS_DELIMITERS) {
      assert forall k :: 0 <= k < |urls[i]| ==> urls[i][k] != ' ';
    }
    Tokenizer.TokenizeJoin(urls, ' ', PEPDS_DELIMITERS);
  }
}
