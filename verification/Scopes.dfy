/** Which scope's configuration applies to a URL, and the configuration that
    results. */
module Scopes {
  import opened HttpConfigs
  import opened Wrappers
  import opened Hosts
  import opened Labels
  import opened Splitting

  // ----- matching

  datatype Entry = Entry(scope: string, json: Option<Object>)

  predicate PrefixMatches(scope: string, url: string) {
    scope <= url
  }

  predicate SuffixMatches(scope: string, url: string) {
    HostMatches(ExtractHostFromUrl(scope), ExtractHostFromUrl(url))
  }

  /** How an entry matches a URL: not at all, as a parent domain with a host so
      long, or as a prefix so long. */
  datatype Match = NoMatch | Suffix(length: nat) | Prefix(length: nat)

  function MatchOf(url: string, e: Entry): Match {
    if e.scope == "default" then NoMatch
    else if PrefixMatches(e.scope, url) then Prefix(|e.scope|)
    else if SuffixMatches(e.scope, url) then Suffix(|ExtractHostFromUrl(e.scope)|)
    else NoMatch
  }

  /** Any prefix beats any suffix; within a kind the longer beats the shorter. */
  predicate Better(a: Match, b: Match) {
    || (a.Prefix? && (!b.Prefix? || a.length > b.length))
    || (a.Suffix? && (b.NoMatch? || (b.Suffix? && a.length > b.length)))
  }

  /** The entry that applies: the best match, the first of equals; none if nothing
      matches. */
  ghost predicate Chosen(url: string, entries: seq<Entry>, choice: Option<nat>) {
    match choice
    case Some(c) =>
      && c < |entries| && MatchOf(url, entries[c]) != NoMatch
      && (forall i :: 0 <= i < |entries| ==> !Better(MatchOf(url, entries[i]), MatchOf(url, entries[c])))
      && (forall i :: 0 <= i < c ==> Better(MatchOf(url, entries[c]), MatchOf(url, entries[i])))
    case None =>
      forall i :: 0 <= i < |entries| ==> MatchOf(url, entries[i]) == NoMatch
  }

  lemma ChoiceUnique(url: string, entries: seq<Entry>, c: Option<nat>, d: Option<nat>)
    requires Chosen(url, entries, c) && Chosen(url, entries, d)
    ensures c == d
  {
    hide MatchOf;
  }

  // ----- the choice, in labels

  /** A scope applies by domain when the labels of its host are the last labels of the
      URL's host. */
  ghost predicate MatchesByDomain(scope: string, url: string) {
    var scopeHost, urlHost := ExtractHostFromUrl(scope), ExtractHostFromUrl(url);
    scopeHost != "" && urlHost != "" && EndsWith(Split(urlHost, '.'), Split(scopeHost, '.'))
  }

  ghost function LabelCount(scope: string): nat {
    |Split(ExtractHostFromUrl(scope), '.')|
  }

  /** The longest scope that is a prefix of the URL, the first of equals. */
  ghost predicate ChosenByPrefix(url: string, entries: seq<Entry>, c: nat)
    requires c < |entries|
  {
    && entries[c].scope <= url
    && forall i :: 0 <= i < |entries| && entries[i].scope != "default" && entries[i].scope <= url ==>
         if i < c then |entries[i].scope| < |entries[c].scope| else |entries[i].scope| <= |entries[c].scope|
  }

  /** The scope that shares most labels with the URL, the first of equals, where no
      scope is a prefix of it. */
  ghost predicate ChosenByDomain(url: string, entries: seq<Entry>, c: nat)
    requires c < |entries|
  {
    && MatchesByDomain(entries[c].scope, url)
    && (forall i :: 0 <= i < |entries| && entries[i].scope != "default" ==> !(entries[i].scope <= url))
    && forall i :: 0 <= i < |entries| && entries[i].scope != "default" && MatchesByDomain(entries[i].scope, url) ==>
         var n, most := LabelCount(entries[i].scope), LabelCount(entries[c].scope);
         if i < c then n < most else n <= most
  }

  ghost predicate ChosenByLabels(url: string, entries: seq<Entry>, choice: Option<nat>) {
    match choice
    case Some(c) =>
      && c < |entries| && entries[c].scope != "default"
      && (ChosenByPrefix(url, entries, c) || ChosenByDomain(url, entries, c))
    case None =>
      forall i :: 0 <= i < |entries| && entries[i].scope != "default" ==>
        !(entries[i].scope <= url) && !MatchesByDomain(entries[i].scope, url)
  }

  lemma SuffixIffByDomain(scope: string, url: string)
    ensures SuffixMatches(scope, url) <==> MatchesByDomain(scope, url)
  {
    hide ExtractHostFromUrl, HostMatches, Split, EndsWith;
    MatchIffLastLabels(ExtractHostFromUrl(scope), ExtractHostFromUrl(url));
  }

  lemma BetterIffMoreLabels(a: string, b: string, url: string)
    requires SuffixMatches(a, url) && SuffixMatches(b, url)
    ensures |ExtractHostFromUrl(a)| > |ExtractHostFromUrl(b)| <==> LabelCount(a) > LabelCount(b)
  {
    hide ExtractHostFromUrl, HostMatches, Split;
    LongerIffMoreLabels(ExtractHostFromUrl(a), ExtractHostFromUrl(b), ExtractHostFromUrl(url));
  }

  /** The search by string comparison makes the choice that the labels make. */
  lemma ChosenIffByLabels(url: string, entries: seq<Entry>, choice: Option<nat>)
    ensures Chosen(url, entries, choice) <==> ChosenByLabels(url, entries, choice)
  {
    hide ExtractHostFromUrl, SuffixMatches, MatchesByDomain, LabelCount;
    forall i | 0 <= i < |entries|
      ensures SuffixMatches(entries[i].scope, url) <==> MatchesByDomain(entries[i].scope, url)
    {
      SuffixIffByDomain(entries[i].scope, url);
    }
    if choice.Some? && choice.value < |entries| && SuffixMatches(entries[choice.value].scope, url) {
      forall i | 0 <= i < |entries| && SuffixMatches(entries[i].scope, url)
        ensures var a, b := entries[i].scope, entries[choice.value].scope;
                && (|ExtractHostFromUrl(a)| > |ExtractHostFromUrl(b)| <==> LabelCount(a) > LabelCount(b))
                && (|ExtractHostFromUrl(b)| > |ExtractHostFromUrl(a)| <==> LabelCount(b) > LabelCount(a))
      {
        BetterIffMoreLabels(entries[i].scope, entries[choice.value].scope, url);
        BetterIffMoreLabels(entries[choice.value].scope, entries[i].scope, url);
      }
    }
  }

  // ----- the search

  /** The JSON object of the choice.  A chosen scope that is empty is not applied,
      nor is one whose JSON does not parse. */
  function Applied(entries: seq<Entry>, choice: Option<nat>): Object
    requires choice.Some? ==> choice.value < |entries|
  {
    if choice.Some? && entries[choice.value].scope != "" && entries[choice.value].json.Some?
    then entries[choice.value].json.value else map[]
  }

  ghost predicate IsDefault(entries: seq<Entry>, d: Option<nat>) {
    match d
    case Some(i) => i < |entries| && entries[i].scope == "default" && forall k :: 0 <= k < i ==> entries[k].scope != "default"
    case None => forall k :: 0 <= k < |entries| ==> entries[k].scope != "default"
  }

  function DefaultObject(entries: seq<Entry>, d: Option<nat>): Object
    requires d.Some? ==> d.value < |entries|
  {
    if d.Some? && entries[d.value].json.Some? then entries[d.value].json.value else map[]
  }

  ghost predicate Resolves(url: string, entries: seq<Entry>, values: Values, d: Option<nat>, c: Option<nat>) {
    && IsDefault(entries, d) && Chosen(url, entries, c)
    && values == Merged(Merged(BUILT_IN, DefaultObject(entries, d)), Applied(entries, c))
  }

  /** What resolution means, field by field: the chosen scope's value, else the
      default entry's, else the built-in one. */
  lemma ResolvedField(url: string, entries: seq<Entry>, values: Values, d: Option<nat>, c: Option<nat>, f: Field)
    requires Resolves(url, entries, values, d, c)
    ensures Get(values, f) ==
            Or(Says(f, Applied(entries, c)), Or(Says(f, DefaultObject(entries, d)), Get(BUILT_IN, f)))
  {
    hide Merged, Get, Says, MatchOf;
    MergedField(BUILT_IN, DefaultObject(entries, d), f);
    MergedField(Merged(BUILT_IN, DefaultObject(entries, d)), Applied(entries, c), f);
  }

  lemma NothingSaid(v: Values)
    ensures Merged(v, map[]) == v
  {
    hide Key;
  }

  /** The search, in one pass over the entries. */
  method ResolveConfig(url: string, entries: seq<Entry>)
      returns (config: HttpConfig, ghost d: Option<nat>, ghost c: Option<nat>)
    ensures fresh(config) && Resolves(url, entries, config.values, d, c)
    ensures ChosenByLabels(url, entries, c)
  {
    hide Merged, ExtractHostFromUrl, HostMatches, ChosenByLabels;
    config := new HttpConfig();
    NothingSaid(BUILT_IN);
    d := None;
    for i := 0 to |entries|
      invariant d == None && forall k :: 0 <= k < i ==> entries[k].scope != "default"
      invariant config.values == BUILT_IN
    {
      if entries[i].scope == "default" {
        d := Some(i);
        if entries[i].json.Some? {
          config.MergeFrom(entries[i].json.value);
        }
        break;
      }
    }
    var bestScope: string, bestJson: Option<Object>, bestIsPrefix;
    bestScope, bestJson, bestIsPrefix, c := Search(url, entries);
    NothingSaid(config.values);
    if bestScope != "" {
      if bestJson.Some? {
        config.MergeFrom(bestJson.value);
      }
    }
  }

  /** The part of the search that finds the best scope. */
  method Search(url: string, entries: seq<Entry>)
      returns (bestScope: string, bestJson: Option<Object>, bestIsPrefix: bool, ghost best: Option<nat>)
    ensures Chosen(url, entries, best) && ChosenByLabels(url, entries, best)
    ensures best.Some? ==> bestScope == entries[best.value].scope && bestJson == entries[best.value].json
    ensures best.None? ==> bestScope == "" && bestJson == None
    ensures bestIsPrefix <==> best.Some? && PrefixMatches(entries[best.value].scope, url)
  {
    hide ExtractHostFromUrl, ChosenByLabels;
    bestScope, bestJson, bestIsPrefix, best := "", None, false, None;
    assert ExtractHostFromUrl("") == "" by {
      EmptyHost();
    }
    for i := 0 to |entries|
      invariant best.Some? ==> best.value < i
      invariant Chosen(url, entries[..i], best)
      invariant best.Some? ==> bestScope == entries[best.value].scope && bestJson == entries[best.value].json
      invariant best.None? ==> bestScope == "" && bestJson == None
      invariant bestIsPrefix <==> best.Some? && MatchOf(url, entries[best.value]).Prefix?
    {
      var scope, json := entries[i].scope, entries[i].json;
      ghost var found := MatchOf(url, entries[i]);
      assert entries[..i + 1] == entries[..i] + [entries[i]];
      if scope == "default" {
        continue;
      }
      if scope <= url {
        if !bestIsPrefix || |scope| > |bestScope| {
          bestScope, bestJson, bestIsPrefix := scope, json, true;
          best := Some(i);
        }
        continue;
      }
      if !bestIsPrefix {
        var scopeHost := ExtractHostFromUrl(scope);
        var urlHost := ExtractHostFromUrl(url);
        if HostMatches(scopeHost, urlHost) && |scopeHost| > |ExtractHostFromUrl(bestScope)| {
          bestScope, bestJson := scope, json;
          best := Some(i);
        }
      }
    }
    assert entries[..|entries|] == entries;
    ChosenIffByLabels(url, entries, best);
  }

  lemma EmptyHost()
    ensures ExtractHostFromUrl("") == ""
  {
  }

  // ----- the empty scope

  /** An entry with the empty scope is a prefix of every URL, so that no match by
      domain is ever chosen beside it. */
  lemma EmptyScopeShutsOutSuffixes(url: string, entries: seq<Entry>, e: nat, c: Option<nat>)
    requires e < |entries| && entries[e].scope == "" && Chosen(url, entries, c)
    ensures c.Some? && MatchOf(url, entries[c.value]).Prefix?
  {
    hide ExtractHostFromUrl, HostMatches;
    assert MatchOf(url, entries[e]) == Prefix(0);
  }

  /** The best match by domain, the first of equals. */
  ghost predicate BestSuffix(url: string, entries: seq<Entry>, b: nat) {
    && b < |entries| && MatchOf(url, entries[b]).Suffix?
    && forall i :: 0 <= i < |entries| && i != b && MatchOf(url, entries[i]).Suffix? ==>
         var n, best := MatchOf(url, entries[i]).length, MatchOf(url, entries[b]).length;
         if i < b then n < best else n <= best
  }

  /** Where some scope matches by domain and none but perhaps the empty one is a
      prefix, the best match by domain is chosen, and its object applied, if and
      only if no entry has the empty scope; otherwise nothing is applied. */
  lemma SuffixAppliesIffNoEmptyScope(url: string, entries: seq<Entry>, c: Option<nat>, b: nat)
    requires Chosen(url, entries, c) && BestSuffix(url, entries, b)
    requires forall i :: 0 <= i < |entries| && MatchOf(url, entries[i]).Prefix? ==> entries[i].scope == ""
    ensures c == Some(b) <==> forall i :: 0 <= i < |entries| ==> entries[i].scope != ""
    ensures c != Some(b) ==> Applied(entries, c) == map[]
    ensures Applied(entries, c) == Applied(entries, Some(b)) <==>
            (forall i :: 0 <= i < |entries| ==> entries[i].scope != "") || Applied(entries, Some(b)) == map[]
  {
    if e: nat :| e < |entries| && entries[e].scope == "" {
      EmptyScopeShutsOutSuffixes(url, entries, e, c);
    } else {
      hide MatchOf;
      assert Chosen(url, entries, Some(b));
      ChoiceUnique(url, entries, c, Some(b));
    }
  }

  // ----- the order of the entries

  ghost predicate ScopesDistinct(entries: seq<Entry>) {
    forall i, j :: 0 <= i < j < |entries| ==> entries[i].scope != entries[j].scope
  }

  /** The best match is attained by one entry only: no two entries that match by
      suffix alone and longest have hosts of the same length, which for matching
      scopes means the same host. */
  ghost predicate Unambiguous(url: string, entries: seq<Entry>, c: nat)
    requires c < |entries|
  {
    forall i :: 0 <= i < |entries| && i != c ==> MatchOf(url, entries[i]) != MatchOf(url, entries[c]) || MatchOf(url, entries[c]).Prefix?
  }

  /** Prefixes of one length are one string, hosts of one length that both match
      are one host. */
  lemma EqualMatches(url: string, a: Entry, b: Entry)
    requires MatchOf(url, a) == MatchOf(url, b) != NoMatch
    ensures MatchOf(url, a).Prefix? ==> a.scope == b.scope
    ensures MatchOf(url, a).Suffix? ==> ExtractHostFromUrl(a.scope) == ExtractHostFromUrl(b.scope)
  {
    hide ExtractHostFromUrl;
  }

  lemma Somewhere(entries: seq<Entry>, others: seq<Entry>, i: nat) returns (j: nat)
    requires multiset(entries) == multiset(others) && i < |entries|
    ensures j < |others| && others[j] == entries[i]
  {
    assert entries[i] in multiset(others);
    j :| 0 <= j < |others| && others[j] == entries[i];
  }

  /** Order does not matter.  Two lists of the same entries, with distinct scopes,
      choose the same entry and the same default, unless the best match is by
      suffix and two scopes share its host. */
  lemma OrderDoesNotMatter(url: string, entries: seq<Entry>, others: seq<Entry>, c: Option<nat>, c': Option<nat>)
    requires multiset(entries) == multiset(others) && ScopesDistinct(entries)
    requires Chosen(url, entries, c) && Chosen(url, others, c')
    requires c.Some? ==> Unambiguous(url, entries, c.value)
    ensures c.Some? <==> c'.Some?
    ensures c.Some? ==> entries[c.value] == others[c'.value]
    ensures Applied(entries, c) == Applied(others, c')
  {
    hide MatchOf;
    if c.Some? {
      var j := Somewhere(entries, others, c.value);
      var k := Somewhere(others, entries, c'.value);
      if k != c.value {
        assert MatchOf(url, entries[k]) == MatchOf(url, entries[c.value]);
        EqualMatches(url, entries[k], entries[c.value]);
        assert false;
      }
    } else if c'.Some? {
      var k := Somewhere(others, entries, c'.value);
      assert false;
    }
  }

  lemma DefaultOrder(entries: seq<Entry>, others: seq<Entry>, d: Option<nat>, d': Option<nat>)
    requires multiset(entries) == multiset(others) && ScopesDistinct(entries)
    requires IsDefault(entries, d) && IsDefault(others, d')
    ensures DefaultObject(entries, d) == DefaultObject(others, d')
  {
    if d.Some? {
      var j := Somewhere(entries, others, d.value);
      var k := Somewhere(others, entries, d'.value);
      assert k == d.value;
    } else if d'.Some? {
      var k := Somewhere(others, entries, d'.value);
      assert false;
    }
  }

  /** So the resolved configuration is the same. */
  lemma ResolutionIgnoresOrder(url: string, entries: seq<Entry>, others: seq<Entry>, v: Values, v': Values,
                               d: Option<nat>, c: Option<nat>, d': Option<nat>, c': Option<nat>)
    requires multiset(entries) == multiset(others) && ScopesDistinct(entries)
    requires Resolves(url, entries, v, d, c) && Resolves(url, others, v', d', c')
    requires c.Some? ==> Unambiguous(url, entries, c.value)
    ensures v == v'
  {
    hide Merged;
    OrderDoesNotMatter(url, entries, others, c, c');
    DefaultOrder(entries, others, d, d');
  }

  function MoveToFront(entries: seq<Entry>, i: nat): seq<Entry>
    requires i < |entries|
  {
    [entries[i]] + (entries[..i] + entries[i + 1..])
  }

  /** And the condition is exact.  When two entries both attain the best match,
      each of them is chosen under some order of the entries: the one that puts
      it first. */
  lemma OrderMattersWhenAmbiguous(url: string, entries: seq<Entry>, i: nat)
    requires i < |entries| && MatchOf(url, entries[i]) != NoMatch
    requires forall k :: 0 <= k < |entries| ==> !Better(MatchOf(url, entries[k]), MatchOf(url, entries[i]))
    ensures multiset(MoveToFront(entries, i)) == multiset(entries)
    ensures Chosen(url, MoveToFront(entries, i), Some(0)) && MoveToFront(entries, i)[0] == entries[i]
  {
    hide MatchOf;
    assert entries == entries[..i] + [entries[i]] + entries[i + 1..];
    forall k | 0 <= k < |entries|
      ensures !Better(MatchOf(url, MoveToFront(entries, i)[k]), MatchOf(url, entries[i]))
    {
      var j := if k == 0 then i else if k <= i then k - 1 else k;
      assert MoveToFront(entries, i)[k] == entries[j];
    }
  }

  /** Every list of the same entries makes the same choice. */
  ghost predicate ChoiceIndependentOfOrder(url: string, entries: seq<Entry>, c: nat)
    requires c < |entries|
  {
    forall others: seq<Entry>, d: nat ::
      multiset(entries) == multiset(others) && d < |others| && Chosen(url, others, Some(d)) ==> others[d] == entries[c]
  }

  /** Order matters just when the best match is a host shared by two scopes. */
  lemma OrderIndependence(url: string, entries: seq<Entry>, c: nat)
    requires ScopesDistinct(entries) && Chosen(url, entries, Some(c))
    ensures ChoiceIndependentOfOrder(url, entries, c) <==> Unambiguous(url, entries, c)
  {
    hide MatchOf;
    if Unambiguous(url, entries, c) {
      forall others: seq<Entry>, d: nat | multiset(entries) == multiset(others) && d < |others| && Chosen(url, others, Some(d))
        ensures others[d] == entries[c]
      {
        OrderDoesNotMatter(url, entries, others, Some(c), Some(d));
      }
    } else {
      var i :| 0 <= i < |entries| && i != c && MatchOf(url, entries[i]) == MatchOf(url, entries[c]);
      OrderMattersWhenAmbiguous(url, entries, i);
      assert MoveToFront(entries, i)[0] != entries[c];
    }
  }
}
