/**
 The Consul watch loop: blocking queries that carry an index, answers that fold into a document or
 into nothing, and a first document that only primes the comparison.

 What the agent, the merge and the callback answer is the input, one `Turn` each time round the loop.
 */
module ConsulWatch {
  import opened Common

  datatype Keys = One(key: string) | Several(keys: seq<string>) | Prefix(prefix: string)

  /** A stored value after base64 and UTF-8, if it is there and is text. */
  datatype Stored = Text(text: string) | Missing | Garbled

  datatype Entry = Entry(key: Option<string>, stored: Stored)

  /** One blocking query. `header` is the index the agent names, `refuses` whether the callback would refuse the
      document. */
  datatype Turn =
    | QueryFailed
    | Answered(header: Option<nat>, entries: seq<Entry>, refuses: bool)

  /** What merging the pairs of a subtree comes to, if it does. */
  type Merge = seq<(string, string)> -> Option<string>

  // ---------------------------------------------------------------------------------------------
  // What an answer folds into

  function TrimStart(s: string): string {
    if s != "" && s[0] == '/' then TrimStart(s[1..]) else s
  }

  predicate EndsWithSlash(s: string) {
    s != "" && s[|s| - 1] == '/'
  }

  function KeyOf(entry: Entry, expected: Option<string>): string {
    if entry.key.Some? then entry.key.value else if expected.Some? then expected.value else ""
  }

  /** `pairs_of`, entry by entry: under a prefix a stray key is an error and a folder is skipped; a value
      that is not text is an error. */
  function PairsOf(keys: Keys, expected: Option<string>, entries: seq<Entry>): Option<seq<(string, string)>> {
    if entries == [] then (if expected.Some? then None else Some([])) else PairsFrom(keys, expected, entries)
  }

  function PairsFrom(keys: Keys, expected: Option<string>, entries: seq<Entry>): Option<seq<(string, string)>> {
    if entries == [] then Some([])
    else
      var key := KeyOf(entries[0], expected);
      var rest := PairsFrom(keys, expected, entries[1..]);
      if keys.Prefix? && !(TrimStart(keys.prefix) <= key) then None
      else if keys.Prefix? && EndsWithSlash(key) then rest
      else if !entries[0].stored.Text? || rest.None? then None
      else Some([(key, entries[0].stored.text)] + rest.value)
  }

  /** An entry that does not end `pairs_of`. */
  predicate Passable(keys: Keys, expected: Option<string>, entry: Entry) {
    var key := KeyOf(entry, expected);
    if keys.Prefix? then TrimStart(keys.prefix) <= key && (EndsWithSlash(key) || entry.stored.Text?)
    else entry.stored.Text?
  }

  /** All or nothing: there are pairs exactly when no entry is in the way, and then every pair is some
      entry's key and text. */
  lemma {:induction false} PairsIff(keys: Keys, expected: Option<string>, entries: seq<Entry>)
    ensures var pairs := PairsFrom(keys, expected, entries);
      && (pairs.Some? <==> forall i :: 0 <= i < |entries| ==> Passable(keys, expected, entries[i]))
      && (pairs.Some? ==> |pairs.value| <= |entries| && forall j :: 0 <= j < |pairs.value| ==>
            exists i :: 0 <= i < |entries| && KeyOf(entries[i], expected) == pairs.value[j].0
                        && entries[i].stored == Text(pairs.value[j].1))
  {
    if entries != [] {
      var rest := entries[1..];
      PairsIff(keys, expected, rest);
      assert forall i :: 0 < i < |entries| ==> entries[i] == rest[i - 1];
      var pairs := PairsFrom(keys, expected, entries);
      if pairs.Some? {
        forall j | 0 <= j < |pairs.value|
          ensures exists i :: 0 <= i < |entries| && KeyOf(entries[i], expected) == pairs.value[j].0
                              && entries[i].stored == Text(pairs.value[j].1)
        {
          PairFrom(keys, expected, entries, j);
        }
      }
    }
  }

  lemma PairFrom(keys: Keys, expected: Option<string>, entries: seq<Entry>, j: nat)
    requires entries != [] && PairsFrom(keys, expected, entries).Some? && j < |PairsFrom(keys, expected, entries).value|
    requires var rest := PairsFrom(keys, expected, entries[1..]);
      rest.Some? ==> forall k :: 0 <= k < |rest.value| ==>
        exists i :: 0 <= i < |entries[1..]| && KeyOf(entries[1..][i], expected) == rest.value[k].0
                    && entries[1..][i].stored == Text(rest.value[k].1)
    ensures var pair := PairsFrom(keys, expected, entries).value[j];
      exists i :: 0 <= i < |entries| && KeyOf(entries[i], expected) == pair.0 && entries[i].stored == Text(pair.1)
  {
    var pair := PairsFrom(keys, expected, entries).value[j];
    var rest := PairsFrom(keys, expected, entries[1..]).value;
    if pair in rest {
      var k :| 0 <= k < |rest| && rest[k] == pair;
      var i :| 0 <= i < |entries[1..]| && KeyOf(entries[1..][i], expected) == pair.0
               && entries[1..][i].stored == Text(pair.1);
      assert entries[i + 1] == entries[1..][i];
    } else {
      assert KeyOf(entries[0], expected) == pair.0 && entries[0].stored == Text(pair.1);
    }
  }

  /** `pairs_of`'s own loop. */
  method CollectPairs(keys: Keys, expected: Option<string>, entries: seq<Entry>)
    returns (pairs: Option<seq<(string, string)>>)
    ensures pairs == PairsOf(keys, expected, entries)
  {
    if expected.Some? && entries == [] {
      return None;
    }
    var out: seq<(string, string)> := [];
    ghost var all := PairsFrom(keys, expected, entries);
    assert entries[0..] == entries && (all.Some? ==> [] + all.value == all.value);
    for i := 0 to |entries|
      invariant PairsFrom(keys, expected, entries) == Prepended(out, PairsFrom(keys, expected, entries[i..]))
    {
      var entry := entries[i];
      assert entries[i..][0] == entry && entries[i..][1..] == entries[i + 1..];
      var key := KeyOf(entry, expected);
      if keys.Prefix? && !(TrimStart(keys.prefix) <= key) {
        return None;
      }
      if keys.Prefix? && EndsWithSlash(key) {
        continue;
      }
      if !entry.stored.Text? {
        return None;
      }
      NextPair(keys, expected, entries[i..], out);
      out := out + [(key, entry.stored.text)];
    }
    assert out + [] == out;
    pairs := Some(out);
  }

  lemma NextPair(keys: Keys, expected: Option<string>, entries: seq<Entry>, out: seq<(string, string)>)
    requires entries != [] && Passable(keys, expected, entries[0])
    requires !(keys.Prefix? && EndsWithSlash(KeyOf(entries[0], expected)))
    ensures Prepended(out, PairsFrom(keys, expected, entries)) ==
      Prepended(out + [(KeyOf(entries[0], expected), entries[0].stored.text)], PairsFrom(keys, expected, entries[1..]))
  {
    var rest := PairsFrom(keys, expected, entries[1..]);
    if rest.Some? {
      var pair := (KeyOf(entries[0], expected), entries[0].stored.text);
      assert out + ([pair] + rest.value) == out + [pair] + rest.value;
    }
  }

  ghost function Prepended(out: seq<(string, string)>, rest: Option<seq<(string, string)>>): Option<seq<(string, string)>> {
    if rest.None? then None else Some(out + rest.value)
  }

  datatype Fold = Document(text: string) | Nothing | Unfoldable

  /** `watched_document`. */
  function Folded(keys: Keys, merge: Merge, turn: Turn): Fold
    requires turn.Answered?
  {
    match keys
    case One(key) =>
      var pairs := PairsOf(keys, Some(key), turn.entries);
      if pairs.Some? && pairs.value != [] then Document(Last(pairs.value).1) else Nothing
    case _ =>
      if |turn.entries| > MOST_KEYS then Unfoldable
      else
        var pairs := PairsOf(keys, None, turn.entries);
        if pairs.None? then Unfoldable
        else if pairs.value == [] then Nothing
        else if merge(pairs.value).None? then Unfoldable
        else Document(merge(pairs.value).value)
  }

  /** `watched_document`, with its own call of `pairs_of`. */
  method WatchedDocument(keys: Keys, merge: Merge, turn: Turn) returns (folded: Fold)
    requires turn.Answered?
    ensures folded == Folded(keys, merge, turn)
  {
    if keys.One? {
      var pairs := CollectPairs(keys, Some(keys.key), turn.entries);
      return if pairs.Some? && pairs.value != [] then Document(Last(pairs.value).1) else Nothing;
    }
    if |turn.entries| > MOST_KEYS {
      return Unfoldable;
    }
    var pairs := CollectPairs(keys, None, turn.entries);
    if pairs.None? {
      return Unfoldable;
    }
    if pairs.value == [] {
      return Nothing;
    }
    var merged := merge(pairs.value);
    folded := if merged.Some? then Document(merged.value) else Unfoldable;
  }

  // ---------------------------------------------------------------------------------------------
  // The same, told from the entries

  /** What is left has no slash in front, and only slashes were taken off. */
  lemma {:induction false} Trimmed(s: string) returns (k: nat)
    ensures k <= |s| && TrimStart(s) == s[k..]
    ensures (forall i :: 0 <= i < k ==> s[i] == '/') && (k < |s| ==> s[k] != '/')
  {
    k := 0;
    if s != "" && s[0] == '/' {
      var rest := s[1..];
      var j := Trimmed(rest);
      k := j + 1;
      assert rest[j..] == s[k..];
      assert forall i :: 0 < i < |s| ==> s[i] == rest[i - 1];
    }
  }

  predicate AllText(entries: seq<Entry>) {
    forall i :: 0 <= i < |entries| ==> entries[i].stored.Text?
  }

  predicate IsFolder(entry: Entry) {
    entry.key.Some? && entry.key.value != "" && Last(entry.key.value) == '/'
  }

  /** Every entry is under the prefix, and a folder or text. */
  predicate AllPass(prefix: string, entries: seq<Entry>) {
    forall i :: 0 <= i < |entries| ==>
      && TrimStart(prefix) <= (if entries[i].key.Some? then entries[i].key.value else "")
      && (IsFolder(entries[i]) || entries[i].stored.Text?)
  }

  /** The entries that are no folders, with their texts, in order. */
  function Sections(entries: seq<Entry>): seq<(string, string)> {
    if entries == [] then []
    else
      var entry := Last(entries);
      var key := if entry.key.Some? then entry.key.value else "";
      Sections(entries[..|entries| - 1]) + if IsFolder(entry) || !entry.stored.Text? then [] else [(key, entry.stored.text)]
  }

  /** The document an answer holds: the text of the last entry of one key, or the merge of a subtree's sections. */
  function DocumentIn(keys: Keys, merge: Merge, turn: Turn): Option<string> {
    if !turn.Answered? then None
    else match keys
      case One(_) => if turn.entries != [] && AllText(turn.entries) then Some(Last(turn.entries).stored.text) else None
      case Prefix(prefix) =>
        if |turn.entries| <= 512 && AllPass(prefix, turn.entries) && Sections(turn.entries) != []
        then merge(Sections(turn.entries)) else None
      case Several(_) => None
  }

  /** A subtree that can never become a document as it is. */
  predicate CannotFold(keys: Keys, merge: Merge, turn: Turn) {
    turn.Answered? && keys.Prefix? &&
    (|turn.entries| > 512 || !AllPass(keys.prefix, turn.entries)
     || (Sections(turn.entries) != [] && merge(Sections(turn.entries)).None?))
  }

  lemma {:induction false} PairsSnoc(keys: Keys, expected: Option<string>, entries: seq<Entry>, entry: Entry)
    ensures PairsFrom(keys, expected, entries + [entry]) ==
      var before, key := PairsFrom(keys, expected, entries), KeyOf(entry, expected);
      if before.None? || !Passable(keys, expected, entry) then None
      else if keys.Prefix? && EndsWithSlash(key) then before
      else Some(before.value + [(key, entry.stored.text)])
  {
    if entries == [] {
      assert entries + [entry] == [entry] && [entry][1..] == [];
      if entry.stored.Text? {
        var pair := (KeyOf(entry, expected), entry.stored.text);
        assert [pair] + [] == [] + [pair];
      }
    } else {
      PairsSnoc(keys, expected, entries[1..], entry);
      assert (entries + [entry])[0] == entries[0] && (entries + [entry])[1..] == entries[1..] + [entry];
      var rest := PairsFrom(keys, expected, entries[1..]);
      if rest.Some? && entries[0].stored.Text? && entry.stored.Text? {
        Assoc([(KeyOf(entries[0], expected), entries[0].stored.text)], rest.value, [(KeyOf(entry, expected), entry.stored.text)]);
      }
    }
  }

  lemma {:induction false} OneKeyPairs(key: string, entries: seq<Entry>)
    ensures var pairs := PairsFrom(One(key), Some(key), entries);
      && (pairs.Some? <==> AllText(entries))
      && (pairs.Some? ==> |pairs.value| == |entries|)
      && (pairs.Some? && entries != [] ==> pairs.value != [] && Last(pairs.value).1 == Last(entries).stored.text)
    decreases |entries|
  {
    if entries != [] {
      var before := entries[..|entries| - 1];
      assert entries == before + [Last(entries)];
      OneKeyPairs(key, before);
      PairsSnoc(One(key), Some(key), before, Last(entries));
    }
  }

  lemma {:induction false} SubtreePairs(prefix: string, entries: seq<Entry>)
    ensures PairsFrom(Prefix(prefix), None, entries) == if AllPass(prefix, entries) then Some(Sections(entries)) else None
    decreases |entries|
  {
    if entries != [] {
      var before := entries[..|entries| - 1];
      assert entries == before + [Last(entries)];
      SubtreePairs(prefix, before);
      PairsSnoc(Prefix(prefix), None, before, Last(entries));
      assert Sections(before) + [] == Sections(before);
      assert KeyOf(Last(entries), None) == if Last(entries).key.Some? then Last(entries).key.value else "";
      assert AllPass(prefix, entries) <==> AllPass(prefix, before) && Passable(Prefix(prefix), None, Last(entries));
    }
  }

  /** What an answer folds into. */
  lemma FoldedIs(keys: Keys, merge: Merge, turn: Turn)
    requires turn.Answered? && !keys.Several?
    ensures var folded, document := Folded(keys, merge, turn), DocumentIn(keys, merge, turn);
      && (folded == Unfoldable <==> CannotFold(keys, merge, turn))
      && (folded == Nothing <==> document.None? && !CannotFold(keys, merge, turn))
      && (folded.Document? <==> document.Some?)
      && (folded.Document? ==> document == Some(folded.text))
  {
    match keys
    case One(key) => OneKeyPairs(key, turn.entries);
    case Prefix(prefix) => SubtreePairs(prefix, turn.entries);
  }

  // ---------------------------------------------------------------------------------------------
  // The loop

  datatype Ending = Unfolded | Callback

  /** A query: the index it carries, and the last one answered before it. */
  datatype Query = Query(index: nat, answered: Option<nat>)

  /** `index`, `last` and `priming` are the loop's variables. The rest is what an observer sees: the
      queries made, the last index answered, the documents answered and delivered, the attempts reported
      as failed, and why the loop ended. */
  datatype Watch = Watch(
    index: nat,
    last: Option<string>,
    priming: bool,
    queries: seq<Query>,
    answered: Option<nat>,
    documents: seq<string>,
    delivered: seq<string>,
    failures: nat,
    ended: Option<Ending>)

  const Begin := Watch(0, None, true, [], None, [], [], 0, None)

  function Step(keys: Keys, merge: Merge, w: Watch, turn: Turn): Watch {
    var asked := w.(queries := w.queries + [Query(w.index, w.answered)]);
    match turn
    case QueryFailed => asked.(failures := w.failures + 1)
    case Answered(header, _, refuses) =>
      var index := if header.Some? then header.value else w.index;
      var got := asked.(index := if index < w.index then 0 else index, answered := Some(index));
      match Folded(keys, merge, turn)
      case Unfoldable => got.(failures := w.failures + 1, ended := Some(Unfolded))
      case Nothing => got.(failures := w.failures + 1)
      case Document(text) =>
        var noted := got.(last := Some(text), priming := false, documents := w.documents + [text]);
        if w.priming || w.last == Some(text) then noted
        else noted.(delivered := w.delivered + [text], ended := if refuses then Some(Callback) else None)
  }

  function Run(keys: Keys, merge: Merge, w: Watch, turns: seq<Turn>): Watch
    decreases |turns|
  {
    if turns == [] || w.ended.Some? then w else Run(keys, merge, Step(keys, merge, w, turns[0]), turns[1..])
  }

  function Indices(queries: seq<Query>): seq<nat> {
    seq(|queries|, i requires 0 <= i < |queries| => queries[i].index)
  }

  /** `watch`, until it ends or is told to stop after these turns. A named list is refused up front. */
  method WatchLoop(keys: Keys, merge: Merge, turns: seq<Turn>)
    returns (outcome: Option<Result<(), Ending>>, delivered: seq<string>, queried: seq<nat>, failures: nat)
    ensures keys.Several? ==> outcome == None && delivered == [] && queried == [] && failures == 0
    ensures !keys.Several? ==>
      var w := Run(keys, merge, Begin, turns);
      && (outcome == Some(if w.ended.Some? then Err(w.ended.value) else Ok(())))
      && delivered == w.delivered && queried == Indices(w.queries) && failures == w.failures
  {
    delivered, queried, failures := [], [], 0;
    if keys.Several? {
      return None, delivered, queried, failures;
    }
    var index: nat := 0;
    var last: Option<string> := None;
    var priming := true;
    ghost var w := Begin;
    for i := 0 to |turns|
      invariant w == Watch(index, last, priming, w.queries, w.answered, w.documents, delivered, failures, None)
      invariant queried == Indices(w.queries)
      invariant Run(keys, merge, Begin, turns) == Run(keys, merge, w, turns[i..])
    {
      var turn := turns[i];
      assert turns[i..][0] == turn && turns[i..][1..] == turns[i + 1..];
      w := Step(keys, merge, w, turn);
      queried := queried + [index];
      match turn {
        case QueryFailed =>
          failures := failures + 1;
        case Answered(header, _, refuses) =>
          var answered := if header.Some? then header.value else index;
          index := if answered < index then 0 else answered;
          var folded := WatchedDocument(keys, merge, turn);
          match folded {
            case Unfoldable =>
              failures := failures + 1;
              return Some(Err(Unfolded)), delivered, queried, failures;
            case Nothing =>
              failures := failures + 1;
            case Document(text) =>
              var same := last == Some(text);
              last := Some(text);
              var primed := priming;
              priming := false;
              if !primed && !same {
                delivered := delivered + [text];
                if refuses {
                  return Some(Err(Callback)), delivered, queried, failures;
                }
              }
          }
      }
    }
    outcome := Some(Ok(()));
  }

  // ---------------------------------------------------------------------------------------------
  // The loop as a function of the answered documents

  /** Adjacent repeats collapsed into one. */
  function Collapse(s: seq<string>): (r: seq<string>)
    ensures s != [] ==> r != []
  {
    if |s| <= 1 then s
    else if s[0] == s[1] then Collapse(s[1..])
    else [s[0]] + Collapse(s[1..])
  }

  lemma {:induction false} CollapseSnoc(s: seq<string>, t: string)
    ensures s == [] ==> Collapse(s + [t]) == [t]
    ensures s != [] ==> Collapse(s + [t]) == if Last(s) == t then Collapse(s) else Collapse(s) + [t]
  {
    if |s| == 1 {
      assert (s + [t])[1..] == [t];
    } else if |s| > 1 {
      CollapseSnoc(s[1..], t);
      assert (s + [t])[1..] == s[1..] + [t];
    }
  }

  /** The answered documents with adjacent repeats collapsed, and the first one dropped. */
  function Announced(documents: seq<string>): seq<string> {
    if documents == [] then [] else Collapse(documents)[1..]
  }

  /** The document an answer folds into, if it does. */
  function Heard(keys: Keys, merge: Merge, turn: Turn): seq<string> {
    if turn.Answered? && Folded(keys, merge, turn).Document? then [Folded(keys, merge, turn).text] else []
  }

  /** The loop's variables against the documents answered so far. */
  ghost predicate Refines(w: Watch) {
    && (w.priming <==> w.documents == [])
    && (w.last == if w.documents == [] then None else Some(Last(w.documents)))
    && w.delivered == Announced(w.documents)
  }

  /** And against the queries made so far. */
  ghost predicate AsksRightly(w: Watch) {
    && (w.index == 0 || w.answered == Some(w.index))
    && (w.queries != [] ==> w.index == 0 || Last(w.queries).index <= w.index)
    && CarriesTheLatest(w.queries)
    && NeverBackExceptToZero(w.queries)
  }

  /** Every query carries 0 or the index of the latest answer before it. */
  ghost predicate CarriesTheLatest(queries: seq<Query>) {
    forall i :: 0 <= i < |queries| ==> queries[i].index == 0 || queries[i].answered == Some(queries[i].index)
  }

  /** The index a query carries never goes down, except to 0. */
  ghost predicate NeverBackExceptToZero(queries: seq<Query>) {
    forall i :: 0 < i < |queries| ==> queries[i].index == 0 || queries[i - 1].index <= queries[i].index
  }

  lemma AskedAgain(queries: seq<Query>, q: Query)
    requires NeverBackExceptToZero(queries) && CarriesTheLatest(queries)
    requires queries != [] ==> q.index == 0 || Last(queries).index <= q.index
    requires q.index == 0 || q.answered == Some(q.index)
    ensures NeverBackExceptToZero(queries + [q]) && CarriesTheLatest(queries + [q])
  {
    var more := queries + [q];
    forall i | 0 < i < |more|
      ensures more[i].index == 0 || more[i - 1].index <= more[i].index
    {
      assert more[i - 1] == queries[i - 1];
      assert i < |queries| ==> more[i] == queries[i];
    }
  }

  lemma StepRefines(keys: Keys, merge: Merge, w: Watch, turn: Turn)
    requires Refines(w)
    ensures Refines(Step(keys, merge, w, turn))
  {
    var heard := Heard(keys, merge, turn);
    StepHears(keys, merge, w, turn);
    if heard != [] {
      assert heard == [heard[0]];
      CollapseSnoc(w.documents, heard[0]);
    }
  }

  /** One turn asks once, and what it is answered decides the next index. */
  lemma StepAsks(keys: Keys, merge: Merge, w: Watch, turn: Turn)
    requires AsksRightly(w)
    ensures AsksRightly(Step(keys, merge, w, turn))
  {
    var q := Query(w.index, w.answered);
    AskedAgain(w.queries, q);
    assert Step(keys, merge, w, turn).queries == w.queries + [q];
  }

  /** What one turn adds: at most a document, delivered unless it is the first or like the last. */
  lemma StepHears(keys: Keys, merge: Merge, w: Watch, turn: Turn)
    ensures var w' := Step(keys, merge, w, turn); var heard := Heard(keys, merge, turn);
      && w'.documents == w.documents + heard
      && (heard == [] ==> w'.last == w.last && w'.priming == w.priming && w'.delivered == w.delivered)
      && (heard != [] ==> w'.last == Some(heard[0]) && !w'.priming
                          && (w'.delivered ==
                              if w.priming || w.last == Some(heard[0]) then w.delivered else w.delivered + heard))
  {
  }

  lemma {:induction false} RunRefines(keys: Keys, merge: Merge, w: Watch, turns: seq<Turn>)
    requires Refines(w) && AsksRightly(w)
    ensures Refines(Run(keys, merge, w, turns)) && AsksRightly(Run(keys, merge, w, turns))
    decreases |turns|
  {
    if turns != [] && w.ended.None? {
      StepRefines(keys, merge, w, turns[0]);
      StepAsks(keys, merge, w, turns[0]);
      RunRefines(keys, merge, Step(keys, merge, w, turns[0]), turns[1..]);
    }
  }

  /** The documents the answers of a run hold, in order. */
  function AnsweredDocuments(keys: Keys, merge: Merge, turns: seq<Turn>): seq<string> {
    if turns == [] then []
    else
      var document := DocumentIn(keys, merge, turns[0]);
      (if document.Some? then [document.value] else []) + AnsweredDocuments(keys, merge, turns[1..])
  }

  lemma HeardIs(keys: Keys, merge: Merge, turn: Turn)
    requires !keys.Several?
    ensures var document := DocumentIn(keys, merge, turn);
      Heard(keys, merge, turn) == if document.Some? then [document.value] else []
  {
    if turn.Answered? {
      FoldedIs(keys, merge, turn);
    }
  }

  lemma {:induction false} RunHears(keys: Keys, merge: Merge, w: Watch, turns: seq<Turn>)
    requires Run(keys, merge, w, turns).ended.None? && !keys.Several?
    ensures Run(keys, merge, w, turns).documents == w.documents + AnsweredDocuments(keys, merge, turns)
    decreases |turns|
  {
    if turns != [] {
      var next := Step(keys, merge, w, turns[0]);
      StepHears(keys, merge, w, turns[0]);
      HeardIs(keys, merge, turns[0]);
      RunHears(keys, merge, next, turns[1..]);
      Assoc(w.documents, Heard(keys, merge, turns[0]), AnsweredDocuments(keys, merge, turns[1..]));
    }
  }

  // ---------------------------------------------------------------------------------------------
  // What every turn does

  /** The index after an answer: the one the agent names, or the one asked with; and 0 if that is lower. */
  function IndexAfter(carried: nat, turn: Turn): nat {
    match turn
    case QueryFailed => carried
    case Answered(header, _, _) =>
      var answered := if header.Some? then header.value else carried;
      if answered < carried then 0 else answered
  }

  /** The queries of a run: the first carries 0, each other what the turn before it made of its own. */
  ghost predicate AsksInTurn(queries: seq<Query>, turns: seq<Turn>) {
    && |queries| == |turns|
    && (queries != [] ==> queries[0].index == 0)
    && forall i :: 0 < i < |queries| ==> queries[i].index == IndexAfter(queries[i - 1].index, turns[i - 1])
  }

  /** The turns that count as failed attempts: a query that failed, and an answer that holds no document. */
  function Failures(keys: Keys, merge: Merge, turns: seq<Turn>): nat {
    if turns == [] then 0
    else Failures(keys, merge, turns[..|turns| - 1]) + if DocumentIn(keys, merge, Last(turns)).None? then 1 else 0
  }

  lemma {:induction false} RunSnoc(keys: Keys, merge: Merge, w: Watch, turns: seq<Turn>, turn: Turn)
    ensures var before := Run(keys, merge, w, turns);
      Run(keys, merge, w, turns + [turn]) == if before.ended.Some? then before else Step(keys, merge, before, turn)
    decreases |turns|
  {
    if turns == [] {
      assert ([] + [turn])[1..] == [];
    } else {
      assert (turns + [turn])[0] == turns[0] && (turns + [turn])[1..] == turns[1..] + [turn];
      RunSnoc(keys, merge, Step(keys, merge, w, turns[0]), turns[1..], turn);
    }
  }

  /** A document the callback is given by the turn after `documents`: not the first, and not like the last. */
  predicate Announces(documents: seq<string>, document: Option<string>) {
    document.Some? && documents != [] && Last(documents) != document.value
  }

  lemma StepExactly(keys: Keys, merge: Merge, w: Watch, turn: Turn)
    requires !keys.Several? && w.ended.None? && Refines(w)
    ensures var w' := Step(keys, merge, w, turn); var document := DocumentIn(keys, merge, turn);
      && w'.queries == w.queries + [Query(w.index, w.answered)]
      && w'.index == IndexAfter(w.index, turn)
      && w'.failures == w.failures + (if document.None? then 1 else 0)
      && (w'.ended == Some(Unfolded) <==> CannotFold(keys, merge, turn))
      && (w'.ended == Some(Callback) <==> Announces(w.documents, document) && turn.refuses)
  {
    if turn.Answered? {
      FoldedIs(keys, merge, turn);
    }
  }

  lemma AskedInTurn(queries: seq<Query>, turns: seq<Turn>, q: Query, turn: Turn)
    requires AsksInTurn(queries, turns)
    requires q.index == if queries == [] then 0 else IndexAfter(Last(queries).index, Last(turns))
    ensures AsksInTurn(queries + [q], turns + [turn])
  {
    var more := queries + [q];
    forall i | 0 < i < |more|
      ensures more[i].index == IndexAfter(more[i - 1].index, (turns + [turn])[i - 1])
    {
      assert i < |queries| ==> more[i] == queries[i];
      assert more[i - 1] == queries[i - 1] && (turns + [turn])[i - 1] == turns[i - 1];
    }
  }

  /** While the loop runs it has asked once per turn, with the index the turns before gave it, and has counted
      every failed query and every answer without a document. */
  lemma {:induction false} RunAsksAndCounts(keys: Keys, merge: Merge, turns: seq<Turn>)
    requires !keys.Several? && Run(keys, merge, Begin, turns).ended.None?
    ensures var w := Run(keys, merge, Begin, turns);
      && AsksInTurn(w.queries, turns)
      && (w.index == if turns == [] then 0 else IndexAfter(Last(w.queries).index, Last(turns)))
      && w.failures == Failures(keys, merge, turns)
    decreases |turns|
  {
    if turns != [] {
      var before, turn := turns[..|turns| - 1], Last(turns);
      assert turns == before + [turn];
      RunSnoc(keys, merge, Begin, before, turn);
      RunAsksAndCounts(keys, merge, before);
      RunKnows(keys, merge, before);
      var w := Run(keys, merge, Begin, before);
      StepExactly(keys, merge, w, turn);
      AskedInTurn(w.queries, before, Query(w.index, w.answered), turn);
    }
  }

  lemma RunKnows(keys: Keys, merge: Merge, turns: seq<Turn>)
    requires !keys.Several? && Run(keys, merge, Begin, turns).ended.None?
    ensures var w := Run(keys, merge, Begin, turns);
      w.documents == AnsweredDocuments(keys, merge, turns) && Refines(w)
  {
    RunRefines(keys, merge, Begin, turns);
    RunHears(keys, merge, Begin, turns);
    assert [] + AnsweredDocuments(keys, merge, turns) == AnsweredDocuments(keys, merge, turns);
  }

  /** Every turn of every run ends the watch exactly as it should: when a subtree cannot become a document, or when
      the callback refuses a document it is given, which is neither the first nor like the one before. */
  lemma EndsExactly(keys: Keys, merge: Merge, turns: seq<Turn>, turn: Turn)
    requires !keys.Several? && Run(keys, merge, Begin, turns).ended.None?
    ensures var ended := Run(keys, merge, Begin, turns + [turn]).ended;
      && (ended == Some(Unfolded) <==> CannotFold(keys, merge, turn))
      && (ended == Some(Callback) <==>
            Announces(AnsweredDocuments(keys, merge, turns), DocumentIn(keys, merge, turn)) && turn.refuses)
  {
    RunSnoc(keys, merge, Begin, turns, turn);
    RunKnows(keys, merge, turns);
    StepExactly(keys, merge, Run(keys, merge, Begin, turns), turn);
  }

  /** While the loop runs, what it has delivered is the answered documents with adjacent repeats collapsed
      and the first dropped, whatever failures, empty answers and index resets came between; every query
      carried the index the turns before gave it, which is 0 or that of the latest answer and never below the
      query before it but 0; and the failed attempts are exactly the turns without a document. */
  lemma WatchIsCollapse(keys: Keys, merge: Merge, turns: seq<Turn>)
    requires !keys.Several?
    ensures var w := Run(keys, merge, Begin, turns);
      && (w.ended.None? ==>
            && w.delivered == Announced(AnsweredDocuments(keys, merge, turns))
            && AsksInTurn(w.queries, turns)
            && w.failures == Failures(keys, merge, turns))
      && CarriesTheLatest(w.queries)
      && NeverBackExceptToZero(w.queries)
  {
    RunRefines(keys, merge, Begin, turns);
    if Run(keys, merge, Begin, turns).ended.None? {
      RunAsksAndCounts(keys, merge, turns);
      RunKnows(keys, merge, turns);
    }
  }
}
