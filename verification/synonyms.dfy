/**
 * Synonym groups and query expansion. The dictionary maps a canonical key to
 * its group of words. The Tk front end (`support_bot.py`) lets a query word
 * select a group by being its key or one of its words; the Qt front end
 * (`retail_demo_bot.py`) only by being one of its words, and its
 * `add_synonym` always stores the key inside its own group.
 */
module Synonyms {
  import opened Wrappers
  import opened Text
  import opened Collections

  type SynonymMap = map<string, seq<string>>

  /** How a query word selects a synonym group. */
  datatype Matching =
    | KeyOrMember  // `w == key or w in syns`
    | MemberOnly   // `word in group`

  predicate Triggers(m: Matching, w: string, key: string, group: seq<string>) {
    w in group || (m == KeyOrMember && w == key)
  }

  /** The words a selected group adds: its members, and its key where the key is added too. */
  function GroupTerms(m: Matching, key: string, group: seq<string>): set<string> {
    (set x | x in group) + (if m == KeyOrMember then {key} else {})
  }

  /** What the groups under `keys` add for the query words `words`. */
  function Contribution(m: Matching, words: seq<string>, syns: SynonymMap, keys: set<string>): set<string>
    requires keys <= syns.Keys
  {
    set k, x | k in keys && x in GroupTerms(m, k, syns[k])
               && (exists w :: w in words && Triggers(m, w, k, syns[k])) :: x
  }

  /** The expanded query: the query words and every group one of them selects. */
  function Expansion(m: Matching, words: seq<string>, syns: SynonymMap): set<string> {
    (set w | w in words) + Contribution(m, words, syns, syns.Keys)
  }

  lemma InContribution(m: Matching, words: seq<string>, syns: SynonymMap, keys: set<string>,
                       k: string, w: string, x: string)
    requires keys <= syns.Keys && k in keys && w in words && Triggers(m, w, k, syns[k])
    requires x in GroupTerms(m, k, syns[k])
    ensures x in Contribution(m, words, syns, keys)
  {
    assert exists v :: v in words && Triggers(m, v, k, syns[k]);
  }

  /** One more key to look at, for a single query word. */
  lemma WordContributionAddKey(m: Matching, w: string, syns: SynonymMap, keys: set<string>, k: string)
    requires keys <= syns.Keys && k in syns
    ensures Contribution(m, [w], syns, keys + {k})
         == Contribution(m, [w], syns, keys) + (if Triggers(m, w, k, syns[k]) then GroupTerms(m, k, syns[k]) else {})
  {
    ContributionAddKey(m, [w], syns, keys, k);
    assert (exists v :: v in [w] && Triggers(m, v, k, syns[k])) <==> Triggers(m, w, k, syns[k]) by {
      if Triggers(m, w, k, syns[k]) { assert w in [w]; }
    }
  }

  lemma ContributionAddKey(m: Matching, words: seq<string>, syns: SynonymMap, keys: set<string>, k: string)
    requires keys <= syns.Keys && k in syns
    ensures Contribution(m, words, syns, keys + {k})
         == Contribution(m, words, syns, keys)
            + (if exists w :: w in words && Triggers(m, w, k, syns[k]) then GroupTerms(m, k, syns[k]) else {})
  {
    var with := Contribution(m, words, syns, keys + {k});
    var rest := Contribution(m, words, syns, keys);
    var extra := if exists w :: w in words && Triggers(m, w, k, syns[k]) then GroupTerms(m, k, syns[k]) else {};
    forall x | x in with ensures x in rest + extra {
      var j, v :| j in keys + {k} && x in GroupTerms(m, j, syns[j]) && v in words && Triggers(m, v, j, syns[j]);
      if j in keys {
        InContribution(m, words, syns, keys, j, v, x);
      }
    }
    forall x | x in rest + extra ensures x in with {
      if x in rest {
        var j, v :| j in keys && x in GroupTerms(m, j, syns[j]) && v in words && Triggers(m, v, j, syns[j]);
        InContribution(m, words, syns, keys + {k}, j, v, x);
      } else {
        var v :| v in words && Triggers(m, v, k, syns[k]);
        InContribution(m, words, syns, keys + {k}, k, v, x);
      }
    }
  }

  lemma ContributionAddWord(m: Matching, words: seq<string>, w: string, syns: SynonymMap)
    ensures Contribution(m, words + [w], syns, syns.Keys)
         == Contribution(m, words, syns, syns.Keys) + Contribution(m, [w], syns, syns.Keys)
  {
    forall x | x in Contribution(m, words + [w], syns, syns.Keys)
      ensures x in Contribution(m, words, syns, syns.Keys) + Contribution(m, [w], syns, syns.Keys)
    {
      var k, v :| k in syns && x in GroupTerms(m, k, syns[k]) && v in words + [w] && Triggers(m, v, k, syns[k]);
      if v in words {
        InContribution(m, words, syns, syns.Keys, k, v, x);
      } else {
        assert v == w;
        InContribution(m, [w], syns, syns.Keys, k, v, x);
      }
    }
    forall x | x in Contribution(m, words, syns, syns.Keys) + Contribution(m, [w], syns, syns.Keys)
      ensures x in Contribution(m, words + [w], syns, syns.Keys)
    {
      if x in Contribution(m, words, syns, syns.Keys) {
        var k, v :| k in syns && x in GroupTerms(m, k, syns[k]) && v in words && Triggers(m, v, k, syns[k]);
        InContribution(m, words + [w], syns, syns.Keys, k, v, x);
      } else {
        var k, v :| k in syns && x in GroupTerms(m, k, syns[k]) && v in [w] && Triggers(m, v, k, syns[k]);
        InContribution(m, words + [w], syns, syns.Keys, k, v, x);
      }
    }
  }

  /**
   * `expand_query_with_synonyms` (with `KeyOrMember`) and the expansion loop
   * of the Qt `search` (with `MemberOnly`): lower the query, split it on
   * whitespace, and for every word and every group, add the group when the
   * word selects it.
   */
  method ExpandQuery(m: Matching, query: string, syns: SynonymMap) returns (expanded: set<string>)
    ensures expanded == Expansion(m, Tokens(Lower(query)), syns)
  {
    var words := Tokens(Lower(query));
    var initial := set w | w in words;
    expanded := initial;
    for i := 0 to |words|
      invariant expanded == initial + Contribution(m, words[..i], syns, syns.Keys)
    {
      var w := words[i];
      expanded := AddSelectedGroups(m, w, syns, expanded);
      assert words[..i + 1] == words[..i] + [w];
      ContributionAddWord(m, words[..i], w, syns);
    }
    assert words[..|words|] == words;
  }

  /** The inner loop: every group the word `w` selects is added. */
  method AddSelectedGroups(m: Matching, w: string, syns: SynonymMap, before: set<string>)
    returns (expanded: set<string>)
    ensures expanded == before + Contribution(m, [w], syns, syns.Keys)
  {
    expanded := before;
    var pending := syns.Keys;
    while pending != {}
      invariant pending <= syns.Keys
      invariant expanded == before + Contribution(m, [w], syns, syns.Keys - pending)
      decreases pending
    {
      var k :| k in pending;
      WordContributionAddKey(m, w, syns, syns.Keys - pending, k);
      if Triggers(m, w, k, syns[k]) {
        expanded := expanded + GroupTerms(m, k, syns[k]);
      }
      assert syns.Keys - (pending - {k}) == (syns.Keys - pending) + {k};
      pending := pending - {k};
    }
  }

  /** Every query word is a search term. */
  lemma ExpansionHasQueryWords(m: Matching, words: seq<string>, syns: SynonymMap)
    ensures forall w :: w in words ==> w in Expansion(m, words, syns)
  {
  }

  /**
   * Symmetry of the Tk expansion: a word that is a group's key or one of its
   * words brings in the key and every word of the group.
   */
  lemma ExpansionSymmetric(words: seq<string>, syns: SynonymMap, w: string, k: string)
    requires w in words && k in syns && (w == k || w in syns[k])
    ensures k in Expansion(KeyOrMember, words, syns)
    ensures forall x :: x in syns[k] ==> x in Expansion(KeyOrMember, words, syns)
  {
    InContribution(KeyOrMember, words, syns, syns.Keys, k, w, k);
    forall x | x in syns[k] ensures x in Expansion(KeyOrMember, words, syns) {
      InContribution(KeyOrMember, words, syns, syns.Keys, k, w, x);
    }
  }

  /** A word of a group brings in the whole group in the Qt expansion too. */
  lemma MemberExpansion(words: seq<string>, syns: SynonymMap, w: string, k: string)
    requires w in words && k in syns && w in syns[k]
    ensures forall x :: x in syns[k] ==> x in Expansion(MemberOnly, words, syns)
  {
    forall x | x in syns[k] ensures x in Expansion(MemberOnly, words, syns) {
      InContribution(MemberOnly, words, syns, syns.Keys, k, w, x);
    }
  }

  /** The expansion holds nothing but query words and words of groups some query word selected. */
  lemma ExpansionOnlyFromQuery(m: Matching, words: seq<string>, syns: SynonymMap, x: string)
    requires x in Expansion(m, words, syns)
    ensures x in words
            || exists w, k :: w in words && k in syns && Triggers(m, w, k, syns[k])
                              && (x == k || x in syns[k])
  {
    if x !in words {
      var k, w :| k in syns && x in GroupTerms(m, k, syns[k]) && w in words && Triggers(m, w, k, syns[k]);
      assert x == k || x in syns[k];
    }
  }

  /** Every group holds its own key. */
  predicate KeysInOwnGroups(syns: SynonymMap) {
    forall k :: k in syns ==> k in syns[k]
  }

  /**
   * Where every key is in its own group, as `add_synonym` keeps it, matching
   * on members only expands a query exactly as matching on key or member does.
   */
  lemma MemberOnlyAgreesWhenKeysInGroups(words: seq<string>, syns: SynonymMap)
    requires KeysInOwnGroups(syns)
    ensures Expansion(MemberOnly, words, syns) == Expansion(KeyOrMember, words, syns)
  {
    forall x | x in Expansion(KeyOrMember, words, syns) ensures x in Expansion(MemberOnly, words, syns) {
      if x !in words {
        var k, w :| k in syns && x in GroupTerms(KeyOrMember, k, syns[k]) && w in words
                    && Triggers(KeyOrMember, w, k, syns[k]);
        assert x in GroupTerms(MemberOnly, k, syns[k]);
        InContribution(MemberOnly, words, syns, syns.Keys, k, w, x);
      }
    }
    forall x | x in Expansion(MemberOnly, words, syns) ensures x in Expansion(KeyOrMember, words, syns) {
      if x !in words {
        var k, w :| k in syns && x in GroupTerms(MemberOnly, k, syns[k]) && w in words
                    && Triggers(MemberOnly, w, k, syns[k]);
        InContribution(KeyOrMember, words, syns, syns.Keys, k, w, x);
      }
    }
  }

  /** Without the key rule, the Qt expansion is never larger than the Tk one. */
  lemma MemberOnlyWithinKeyOrMember(words: seq<string>, syns: SynonymMap)
    ensures Expansion(MemberOnly, words, syns) <= Expansion(KeyOrMember, words, syns)
  {
    forall x | x in Expansion(MemberOnly, words, syns) ensures x in Expansion(KeyOrMember, words, syns) {
      if x !in words {
        var k, w :| k in syns && x in GroupTerms(MemberOnly, k, syns[k]) && w in words
                    && Triggers(MemberOnly, w, k, syns[k]);
        InContribution(KeyOrMember, words, syns, syns.Keys, k, w, x);
      }
    }
  }

  /** No group and no key is the empty word. */
  predicate NoEmptyWords(syns: SynonymMap) {
    forall k :: k in syns ==> k != [] && [] !in syns[k]
  }

  /** Query words are never empty, so the empty word enters the expansion only through a group. */
  lemma ExpansionNonEmptyWords(m: Matching, query: string, syns: SynonymMap)
    requires NoEmptyWords(syns)
    ensures [] !in Expansion(m, Tokens(Lower(query)), syns)
  {
    if [] in Expansion(m, Tokens(Lower(query)), syns) {
      ExpansionOnlyFromQuery(m, Tokens(Lower(query)), syns, []);
    }
  }

  /** Why `add_synonym` refuses its input. */
  datatype SynonymInputError = EmptyInput | TooFewWords

  /** One item of the comma-separated input: stripped and lowered. */
  function NormalizeWord(w: string): (r: string)
    ensures r == [] || (!IsSpace(r[0]) && !IsSpace(r[|r| - 1]))
    ensures forall c :: c in r ==> !('A' <= c <= 'Z')
  {
    Lower(Strip(w))
  }

  /** A comma-separated text has at least two items exactly when it holds a comma. */
  lemma SplitCommaCount(s: string)
    ensures |Split(s, ",")| >= 2 <==> ',' in s
  {
    var i := Find(s, ",", 0);
    if i >= 0 {
      assert s[i..i + 1] == ",";
      assert s[i] == ',';
    }
    if ',' in s {
      var j :| 0 <= j < |s| && s[j] == ',';
      assert s[j..j + 1] == ",";
      FindFirst(s, ",", 0, j);
    }
  }

  /**
   * The parsing step of `add_synonym`: the stripped input must be non-empty
   * and hold at least two comma-separated items; each item is stripped and
   * lowered, and the first one is the key.
   */
  function ParseSynonymGroup(input: string): (r: Result<seq<string>, SynonymInputError>)
    ensures r == Failure(EmptyInput) <==> Strip(input) == []
    ensures r == Failure(TooFewWords) <==> Strip(input) != [] && ',' !in Strip(input)
    ensures r.Success? ==> |r.value| == |Split(Strip(input), ",")| >= 2
    ensures r.Success? ==> forall i :: 0 <= i < |r.value| ==> r.value[i] == NormalizeWord(Split(Strip(input), ",")[i])
  {
    var group := Strip(input);
    if group == [] then Failure(EmptyInput)
    else
      var words := MapSeq(Split(group, ","), NormalizeWord);
      SplitCommaCount(group);
      if |words| < 2 then Failure(TooFewWords) else Success(words)
  }

  /** `self.synonyms[words[0]] = words`. */
  function AddGroup(syns: SynonymMap, words: seq<string>): (r: SynonymMap)
    requires |words| >= 1
    ensures r.Keys == syns.Keys + {words[0]}
    ensures r[words[0]] == words && words[0] in r[words[0]]
    ensures forall k :: k in syns && k != words[0] ==> r[k] == syns[k]
    ensures KeysInOwnGroups(syns) ==> KeysInOwnGroups(r)
    ensures NoEmptyWords(syns) && [] !in words ==> NoEmptyWords(r)
  {
    syns[words[0] := words]
  }

  /** `del self.synonyms[key]`. */
  function DeleteGroup(syns: SynonymMap, key: string): (r: SynonymMap)
    requires key in syns
    ensures r.Keys == syns.Keys - {key}
    ensures forall k :: k in r ==> r[k] == syns[k]
    ensures KeysInOwnGroups(syns) ==> KeysInOwnGroups(r)
    ensures NoEmptyWords(syns) ==> NoEmptyWords(r)
  {
    syns - {key}
  }
}
