/** The log redactor: a walk over an object graph that may share nodes and contain cycles. */
module Redaction {
  import opened Text

  // --- Sensitive keys -----------------------------------------------------------

  /** The alternatives of the pattern; `.?` stands between the words of one alternative. */
  const SECRETS: seq<seq<string>> := [
    ["authorization"], ["cookie"], ["password"], ["passcode"], ["passphrase"], ["secret"], ["credential"],
    ["token"], ["otp"], ["totp"], ["mnemonic"], ["private", "key"], ["database", "url"], ["redis", "url"],
    ["connection", "string"], ["access", "key"], ["api", "key"], ["key_secret"], ["webhook_secret"]]

  predicate HasAt(s: string, i: nat, word: string) {
    i + |word| <= |s| && s[i..i + |word|] == word
  }

  /**
   A character that `.` matches: no line end, and a single UTF-16 unit, since the pattern has no `u`
   flag and sees a character beyond the basic plane as two.
   */
  predicate IsDot(c: char) {
    c != '\n' && c != '\r' && c != '\U{2028}' && c != '\U{2029}' && c <= '\U{FFFF}'
  }

  predicate MatchAt(s: string, i: nat, words: seq<string>)
    decreases words
  {
    words == [] ||
    (HasAt(s, i, words[0]) &&
     var j := i + |words[0]|;
     || MatchAt(s, j, words[1..])
     || (j < |s| && IsDot(s[j]) && MatchAt(s, j + 1, words[1..])))
  }

  /** Whether one of the alternatives matches somewhere, ignoring case. */
  predicate Matches(key: string, secrets: seq<seq<string>>) {
    exists i, p :: 0 <= i <= |key| && 0 <= p < |secrets| && MatchAt(ToLower(key), i, secrets[p])
  }

  predicate IsSensitiveKey(key: string) {
    Matches(key, SECRETS)
  }

  lemma {:induction false} MatchShifts(s: string, i: nat, words: seq<string>, before: string, after: string)
    requires MatchAt(s, i, words)
    ensures MatchAt(before + s + after, |before| + i, words)
    decreases words
  {
    if words != [] {
      var t := before + s + after;
      var j := i + |words[0]|;
      assert t[|before| + i..|before| + j] == s[i..j];
      if MatchAt(s, j, words[1..]) {
        MatchShifts(s, j, words[1..], before, after);
      } else {
        assert t[|before| + j] == s[j];
        MatchShifts(s, j + 1, words[1..], before, after);
      }
    }
  }

  /** A key that contains a sensitive key is sensitive. */
  lemma SensitiveInside(before: string, key: string, after: string, secrets: seq<seq<string>>)
    requires Matches(key, secrets)
    ensures Matches(before + key + after, secrets)
  {
    var i, p :| 0 <= i <= |key| && 0 <= p < |secrets| && MatchAt(ToLower(key), i, secrets[p]);
    MatchShifts(ToLower(key), i, secrets[p], ToLower(before), ToLower(after));
    assert ToLower(before + key + after) == ToLower(before) + ToLower(key) + ToLower(after);
    assert MatchAt(ToLower(before + key + after), |before| + i, secrets[p]);
  }

  /** Two words of an alternative, in any letter case, with nothing or one character between them. */
  lemma SensitivePair(secrets: seq<seq<string>>, p: nat, first: string, between: string, second: string)
    requires p < |secrets| && secrets[p] == [ToLower(first), ToLower(second)]
    requires |between| == 0 || (|between| == 1 && IsDot(between[0]))
    ensures Matches(first + between + second, secrets)
  {
    var s := ToLower(first + between + second);
    var words := secrets[p];
    var j := |first| + |between|;
    assert s[0..|first|] == words[0] && s[j..j + |second|] == words[1];
    assert words[1..] == [words[1]] && words[1..][1..] == [];
    assert MatchAt(s, j, words[1..]);
    assert MatchAt(s, 0, words);
  }

  /** The sensitive words, and pairs of words. */
  predicate IsSecret(words: seq<string>) {
    words in {["private", "key"], ["access", "key"], ["api", "key"], ["database", "url"], ["redis", "url"],
              ["connection", "string"], ["password"], ["passcode"], ["passphrase"], ["otp"], ["totp"], ["token"],
              ["secret"], ["key_secret"], ["webhook_secret"], ["credential"], ["mnemonic"], ["authorization"],
              ["cookie"]}
  }

  /** A text starts with the word, or with the pair and at most one character of the same line between its words. */
  predicate StartsWith(rest: string, words: seq<string>) {
    |words| > 0 && words[0] <= rest && (|words| == 1 || Follows(words[1], rest[|words[0]|..]))
  }

  predicate Follows(second: string, rest: string) {
    second <= rest
    || (rest != "" && rest[0] !in {'\n', '\r', '\U{2028}', '\U{2029}'} && rest[0] as int < 0x1_0000
        && second <= rest[1..])
  }

  lemma HasAtMeans(s: string, i: nat, word: string)
    ensures HasAt(s, i, word) <==> i <= |s| && word <= s[i..]
  {
    if i + |word| <= |s| { assert s[i..][..|word|] == s[i..i + |word|]; }
  }

  lemma MatchesWord(s: string, i: nat, word: string)
    requires i <= |s|
    ensures MatchAt(s, i, [word]) <==> word <= s[i..]
  {
    HasAtMeans(s, i, word);
    assert [word][1..] == [];
  }

  lemma MatchesPair(s: string, i: nat, first: string, second: string)
    requires i <= |s|
    ensures MatchAt(s, i, [first, second]) <==> first <= s[i..] && Follows(second, s[i + |first|..])
  {
    var j := i + |first|;
    HasAtMeans(s, i, first);
    assert [first, second][1..] == [second];
    if j <= |s| { MatchesWord(s, j, second); }
    if j < |s| {
      MatchesWord(s, j + 1, second);
      assert s[j..][1..] == s[j + 1..];
    }
  }

  lemma TableHas(words: seq<string>)
    ensures words in SECRETS <==> IsSecret(words)
    ensures IsSecret(words) ==> 1 <= |words| <= 2
  {
  }

  lemma MatchesStart(s: string, i: nat, words: seq<string>)
    requires i <= |s| && IsSecret(words)
    ensures MatchAt(s, i, words) <==> StartsWith(s[i..], words)
  {
    TableHas(words);
    if |words| == 1 {
      assert words == [words[0]];
      MatchesWord(s, i, words[0]);
    } else {
      assert words == [words[0], words[1]];
      MatchesPair(s, i, words[0], words[1]);
      if words[0] <= s[i..] { assert s[i..][|words[0]|..] == s[i + |words[0]|..]; }
    }
  }

  /** A key is sensitive if and only if one of them stands somewhere in it, in any letter case. */
  lemma SensitiveIff(key: string)
    ensures IsSensitiveKey(key)
            <==> exists i, words :: 0 <= i <= |key| && IsSecret(words) && StartsWith(ToLower(key)[i..], words)
  {
    var s := ToLower(key);
    if IsSensitiveKey(key) {
      var i, p :| 0 <= i <= |key| && 0 <= p < |SECRETS| && MatchAt(s, i, SECRETS[p]);
      TableHas(SECRETS[p]);
      MatchesStart(s, i, SECRETS[p]);
    }
    forall i, words | 0 <= i <= |key| && IsSecret(words) && StartsWith(s[i..], words) ensures IsSensitiveKey(key) {
      TableHas(words);
      MatchesStart(s, i, words);
      var p :| 0 <= p < |SECRETS| && SECRETS[p] == words;
      assert MatchAt(s, i, SECRETS[p]);
    }
  }

  // --- Graphs and trees -----------------------------------------------------------

  datatype Value =
    | Null
    | Undefined
    | Text(text: string)
    | Scalar(text: string)
    | Date(time: int)
    | Buffer(bytes: seq<nat>)
    | Ref(id: nat)

  datatype Entry = Entry(key: string, value: Value)

  datatype Node = Array(items: seq<Value>) | Object(entries: seq<Entry>)

  type Graph = map<nat, Node>

  /** What the redactor returns: nothing in it refers to the graph. */
  datatype Tree = Leaf(value: Value) | List(items: seq<Tree>) | Record(fields: seq<Field>)

  datatype Field = Field(key: string, tree: Tree)

  const REDACTED := Leaf(Text("[REDACTED]"))
  const CIRCULAR := Leaf(Text("[Circular]"))

  /** A child of a node; a hidden one sits under a sensitive key. */
  datatype Slot = Slot(hidden: bool, value: Value)

  function Slots(n: Node): (slots: seq<Slot>) {
    match n
    case Array(items) => seq(|items|, i requires 0 <= i < |items| => Slot(false, items[i]))
    case Object(entries) =>
      seq(|entries|, i requires 0 <= i < |entries| => Slot(IsSensitiveKey(entries[i].key), entries[i].value))
  }

  /** A tree node of the same kind, with the same keys. */
  function Rebuild(n: Node, trees: seq<Tree>): (t: Tree)
    requires |trees| == |Slots(n)|
  {
    match n
    case Array(_) => List(trees)
    case Object(entries) => Record(seq(|entries|, i requires 0 <= i < |entries| => Field(entries[i].key, trees[i])))
  }

  predicate Inside(g: Graph, v: Value) {
    v.Ref? ==> v.id in g
  }

  ghost predicate Closed(g: Graph) {
    forall id, i :: id in g && 0 <= i < |Slots(g[id])| ==> Inside(g, Slots(g[id])[i].value)
  }

  ghost predicate AllInside(g: Graph, slots: seq<Slot>) {
    forall i :: 0 <= i < |slots| ==> Inside(g, slots[i].value)
  }

  // --- The redactor ------------------------------------------------------------------

  /** The tree for a value, and the nodes seen by then. */
  ghost function Redact(g: Graph, v: Value, seen: set<nat>): (r: (Tree, set<nat>))
    requires Closed(g) && Inside(g, v)
    ensures seen <= r.1
    decreases g.Keys - seen, 0
  {
    if v.Buffer? then (REDACTED, seen)
    else if !v.Ref? then (Leaf(v), seen)
    else if v.id in seen then (CIRCULAR, seen)
    else
      assert v.id in g.Keys - seen;
      var r := RedactAll(g, Slots(g[v.id]), seen + {v.id});
      (Rebuild(g[v.id], r.0), r.1)
  }

  ghost function RedactAll(g: Graph, slots: seq<Slot>, seen: set<nat>): (r: (seq<Tree>, set<nat>))
    requires Closed(g) && AllInside(g, slots)
    ensures |r.0| == |slots| && seen <= r.1
    decreases g.Keys - seen, |slots|
  {
    if slots == [] then ([], seen)
    else
      var last := |slots| - 1;
      var before := RedactAll(g, slots[..last], seen);
      assert g.Keys - before.1 <= g.Keys - seen;
      if slots[last].hidden then (before.0 + [REDACTED], before.1)
      else
        var r := Redact(g, slots[last].value, before.1);
        (before.0 + [r.0], r.1)
  }

  /** The walk of one more child. */
  lemma RedactNext(g: Graph, slots: seq<Slot>, i: nat, seen: set<nat>)
    requires Closed(g) && AllInside(g, slots) && i < |slots|
    ensures AllInside(g, slots[..i]) && AllInside(g, slots[..i + 1])
    ensures var before := RedactAll(g, slots[..i], seen);
      RedactAll(g, slots[..i + 1], seen)
      == if slots[i].hidden then (before.0 + [REDACTED], before.1)
         else var r := Redact(g, slots[i].value, before.1); (before.0 + [r.0], r.1)
  {
    assert slots[..i + 1][..i] == slots[..i] && slots[..i + 1][i] == slots[i];
  }

  /** The `WeakSet` that one top-level call shares among all its recursive calls. */
  class Seen {
    var members: set<nat>

    constructor ()
      ensures members == {}
    {
      members := {};
    }
  }

  method RedactSensitive(g: Graph, v: Value, seen: Seen) returns (t: Tree)
    requires Closed(g) && Inside(g, v)
    modifies seen
    ensures (t, seen.members) == Redact(g, v, old(seen.members))
    decreases g.Keys - seen.members, 0
  {
    if v.Buffer? {
      return REDACTED;
    }
    if !v.Ref? {
      return Leaf(v);
    }
    if v.id in seen.members {
      return CIRCULAR;
    }
    assert v.id in g.Keys - seen.members;
    seen.members := seen.members + {v.id};
    if g[v.id].Array? {
      t := RedactItems(g, v.id, seen);
    } else {
      t := RedactEntries(g, v.id, seen);
    }
  }

  /** `value.map(...)`. */
  method RedactItems(g: Graph, id: nat, seen: Seen) returns (t: Tree)
    requires Closed(g) && id in g && g[id].Array?
    modifies seen
    ensures var r := RedactAll(g, Slots(g[id]), old(seen.members));
            t == Rebuild(g[id], r.0) && seen.members == r.1
    decreases g.Keys - seen.members, 1
  {
    var items := g[id].items;
    ghost var slots, start := Slots(g[id]), seen.members;
    assert AllInside(g, slots);
    var out: seq<Tree> := [];
    for i := 0 to |items|
      invariant |out| == i && start <= seen.members
      invariant (out, seen.members) == RedactAll(g, slots[..i], start)
    {
      RedactNext(g, slots, i, start);
      var item := RedactSensitive(g, items[i], seen);
      out := out + [item];
    }
    assert slots[..|items|] == slots;
    t := List(out);
  }

  /** The loop over `Object.entries(value)`. */
  method RedactEntries(g: Graph, id: nat, seen: Seen) returns (t: Tree)
    requires Closed(g) && id in g && g[id].Object?
    modifies seen
    ensures var r := RedactAll(g, Slots(g[id]), old(seen.members));
            t == Rebuild(g[id], r.0) && seen.members == r.1
    decreases g.Keys - seen.members, 1
  {
    var entries := g[id].entries;
    ghost var slots, start := Slots(g[id]), seen.members;
    assert AllInside(g, slots);
    var out: seq<Field> := [];
    ghost var trees: seq<Tree> := [];
    for i := 0 to |entries|
      invariant |trees| == i && start <= seen.members
      invariant (trees, seen.members) == RedactAll(g, slots[..i], start)
      invariant out == seq(i, j requires 0 <= j < i => Field(entries[j].key, trees[j]))
    {
      RedactNext(g, slots, i, start);
      var item := REDACTED;
      if !IsSensitiveKey(entries[i].key) {
        item := RedactSensitive(g, entries[i].value, seen);
      }
      out := out + [Field(entries[i].key, item)];
      trees := trees + [item];
    }
    assert slots[..|entries|] == slots;
    t := Record(out);
  }
}
