/** The text of the keys the Redis store writes, all under one prefix. */
module RedisKeys {

  datatype RedisKey =
    | Def(id: string)
    | DefByName(name: string)
    | Run(id: string)
    | RunsAll
    | RunsByState(state: string)
    | RunsByDef(definitionId: string)
    | Node(runId: string, nodeName: string)
    | RunNodes(runId: string)
    | Children(parentId: string)

  function Tag(k: RedisKey): string {
    match k
    case Def(_) => "wf:def:"
    case DefByName(_) => "wf:def:by_name:"
    case Run(_) => "wf:run:"
    case RunsAll => "wf:runs:all"
    case RunsByState(_) => "wf:runs:by_state:"
    case RunsByDef(_) => "wf:runs:by_def:"
    case Node(_, _) => "wf:node:"
    case RunNodes(_) => "wf:run_nodes:"
    case Children(_) => "wf:children:"
  }

  function Rest(k: RedisKey): string {
    match k
    case Def(id) => id
    case DefByName(name) => name
    case Run(id) => id
    case RunsAll => ""
    case RunsByState(state) => state
    case RunsByDef(id) => id
    case Node(run, name) => run + ":" + name
    case RunNodes(run) => run
    case Children(parent) => parent
  }

  function Text(prefix: string, k: RedisKey): string { prefix + (Tag(k) + Rest(k)) }

  /** `k` cuts the common text of two node keys at an earlier colon than `l`. */
  ghost predicate NodesClash(k: RedisKey, l: RedisKey) {
    k.Node? && l.Node? && exists x: string :: l.runId == k.runId + ":" + x && k.nodeName == x + ":" + l.nodeName
  }

  predicate DefsClash(k: RedisKey, l: RedisKey) { k.Def? && l.DefByName? && k.id == "by_name:" + l.name }

  lemma TextSplits(prefix: string, k: RedisKey, l: RedisKey)
    ensures Text(prefix, k) == Text(prefix, l) <==> Tag(k) + Rest(k) == Tag(l) + Rest(l)
  {
    assert Text(prefix, k)[|prefix|..] == Tag(k) + Rest(k);
    assert Text(prefix, l)[|prefix|..] == Tag(l) + Rest(l);
  }

  /** Where the texts of two kinds of key part, if they do. */
  predicate TagsPart(s: string, t: string, i: nat) { i < |s| && i < |t| && s[i] != t[i] }

  lemma TagsApart(k: RedisKey, l: RedisKey)
    requires Tag(k) != Tag(l) && !(k.Def? && l.DefByName?) && !(k.DefByName? && l.Def?)
    ensures TagsPart(Tag(k), Tag(l), 3) || TagsPart(Tag(k), Tag(l), 6) || TagsPart(Tag(k), Tag(l), 8) ||
            TagsPart(Tag(k), Tag(l), 11)
  {
  }

  lemma DefTexts(id: string, name: string)
    ensures "wf:def:" + id == "wf:def:by_name:" + name <==> id == "by_name:" + name
  {
    assert "wf:def:by_name:" == "wf:def:" + "by_name:";
    assert ("wf:def:" + id)[7..] == id;
    assert ("wf:def:by_name:" + name)[7..] == "by_name:" + name;
  }

  lemma EarlierColon(a: string, b: string, c: string, d: string) returns (x: string)
    requires a + ":" + b == c + ":" + d && |a| < |c|
    ensures c == a + ":" + x && b == x + ":" + d
  {
    var s, t := a + ":" + b, c + ":" + d;
    assert s[|a|] == ':' && c[|a|] == t[|a|];
    x := c[|a| + 1..];
    assert c[..|a|] == t[..|a|] == s[..|a|] == a;
    assert b == s[|a| + 1..] && t[|a| + 1..] == x + ":" + d;
  }

  lemma NodeTexts(k: RedisKey, l: RedisKey)
    requires k.Node? && l.Node?
    ensures Rest(k) == Rest(l) <==> k == l || NodesClash(k, l) || NodesClash(l, k)
  {
    if Rest(k) == Rest(l) {
      if |k.runId| < |l.runId| {
        var x := EarlierColon(k.runId, k.nodeName, l.runId, l.nodeName);
      } else if |l.runId| < |k.runId| {
        var x := EarlierColon(l.runId, l.nodeName, k.runId, k.nodeName);
      } else {
        assert Rest(k)[..|k.runId|] == k.runId && Rest(l)[..|l.runId|] == l.runId;
        assert Rest(k)[|k.runId| + 1..] == k.nodeName && Rest(l)[|l.runId| + 1..] == l.nodeName;
      }
    }
    if NodesClash(k, l) { ClashIsShared(k, l); }
    if NodesClash(l, k) { ClashIsShared(l, k); }
  }

  lemma ClashIsShared(k: RedisKey, l: RedisKey)
    requires NodesClash(k, l)
    ensures Rest(k) == Rest(l)
  {
    var x :| l.runId == k.runId + ":" + x && k.nodeName == x + ":" + l.nodeName;
    assert k.runId + ":" + (x + ":" + l.nodeName) == (k.runId + ":" + x) + ":" + l.nodeName;
  }

  lemma SameTag(k: RedisKey, l: RedisKey)
    requires Tag(k) == Tag(l)
    ensures Tag(k) + Rest(k) == Tag(l) + Rest(l) <==> Rest(k) == Rest(l)
  {
    assert (Tag(k) + Rest(k))[|Tag(k)|..] == Rest(k);
    assert (Tag(l) + Rest(l))[|Tag(l)|..] == Rest(l);
  }

  /** Distinct keys share a text exactly when node keys cut it at other colons or a definition id poses as a name. */
  lemma KeysCollideIff(prefix: string, k: RedisKey, l: RedisKey)
    ensures Text(prefix, k) == Text(prefix, l) <==>
            k == l || NodesClash(k, l) || NodesClash(l, k) || DefsClash(k, l) || DefsClash(l, k)
  {
    TextSplits(prefix, k, l);
    if Tag(k) == Tag(l) {
      SameTag(k, l);
      if k.Node? { NodeTexts(k, l); }
    } else if k.Def? && l.DefByName? {
      DefTexts(k.id, l.name);
    } else if k.DefByName? && l.Def? {
      DefTexts(l.id, k.name);
    } else {
      TagsApart(k, l);
      var s, t := Tag(k) + Rest(k), Tag(l) + Rest(l);
      assert forall i :: 0 <= i < |Tag(k)| && i < |Tag(l)| ==> s[i] == Tag(k)[i] && t[i] == Tag(l)[i];
    }
  }

  /** It takes a colon in a run id: two nodes of different runs, one key. */
  lemma ColonInRunIdClashes(prefix: string)
    ensures Text(prefix, Node("a", "b:c")) == Text(prefix, Node("a:b", "c"))
  {
    var k, l := Node("a", "b:c"), Node("a:b", "c");
    assert l.runId == k.runId + ":" + "b" && k.nodeName == "b" + ":" + l.nodeName;
    KeysCollideIff(prefix, k, l);
  }

  lemma ClashNeedsColon(k: RedisKey, l: RedisKey)
    ensures NodesClash(k, l) ==> ':' in l.runId
    ensures DefsClash(k, l) ==> ':' in k.id
  {
    if NodesClash(k, l) { assert l.runId[|k.runId|] == ':'; }
    if DefsClash(k, l) { assert k.id[7] == ':'; }
  }

  /** With run and definition ids free of colons, as generated ids are, keys never collide. */
  lemma ColonFreeIdsDistinct(prefix: string, k: RedisKey, l: RedisKey)
    requires (k.Node? ==> ':' !in k.runId) && (l.Node? ==> ':' !in l.runId)
    requires (k.Def? ==> ':' !in k.id) && (l.Def? ==> ':' !in l.id)
    ensures Text(prefix, k) == Text(prefix, l) ==> k == l
  {
    KeysCollideIff(prefix, k, l);
    ClashNeedsColon(k, l);
    ClashNeedsColon(l, k);
  }

  // One flat key space

  /** A command on one key; `value` is whatever is stored under it. */
  datatype Command<V> = Get(key: RedisKey) | Put(key: RedisKey, value: V) | Del(key: RedisKey)

  datatype Stored<V> = Nothing | Just(value: V)

  /** The command on a space that tells keys apart by `at`. */
  function Execute<K, V>(space: map<K, V>, at: RedisKey -> K, c: Command<V>): (map<K, V>, Stored<V>) {
    var k := at(c.key);
    var found := if k in space then Just(space[k]) else Nothing;
    match c
    case Get(_) => (space, found)
    case Put(_, v) => (space[k := v], found)
    case Del(_) => (space - {k}, found)
  }

  function Answers<K, V>(space: map<K, V>, at: RedisKey -> K, commands: seq<Command<V>>): seq<Stored<V>>
    decreases commands
  {
    if commands == [] then []
    else
      var (next, answer) := Execute(space, at, commands[0]);
      [answer] + Answers(next, at, commands[1..])
  }

  /** The typed space and the flat one hold the same under every key of `keys`. */
  ghost predicate SameUnder<V(!new)>(
    prefix: string, typed: map<RedisKey, V>, flat: map<string, V>, keys: set<RedisKey>)
  {
    forall k :: k in keys ==>
      (k in typed <==> Text(prefix, k) in flat) && (k in typed ==> typed[k] == flat[Text(prefix, k)])
  }

  ghost predicate NoClash(prefix: string, keys: set<RedisKey>) {
    forall k, l :: k in keys && l in keys && Text(prefix, k) == Text(prefix, l) ==> k == l
  }

  /** Keys told apart as they are, and by their text. */
  function Itself(): RedisKey -> RedisKey { k => k }

  function ByText(prefix: string): RedisKey -> string { k => Text(prefix, k) }

  ghost predicate Uses<V>(commands: seq<Command<V>>, keys: set<RedisKey>) {
    forall i :: 0 <= i < |commands| ==> commands[i].key in keys
  }

  lemma ExecuteAlike<V(!new)>(prefix: string, typed: map<RedisKey, V>, flat: map<string, V>, keys: set<RedisKey>,
      c: Command<V>)
    requires NoClash(prefix, keys) && SameUnder(prefix, typed, flat, keys) && c.key in keys
    ensures var (a, x) := Execute(typed, Itself(), c);
            var (b, y) := Execute(flat, ByText(prefix), c);
            x == y && SameUnder(prefix, a, b, keys)
  {
  }

  /** As long as no two keys in use share a text, a flat space answers every command as a typed one does. */
  lemma {:induction false} FlatAnswersAlike<V(!new)>(prefix: string, typed: map<RedisKey, V>, flat: map<string, V>,
      keys: set<RedisKey>, commands: seq<Command<V>>)
    requires NoClash(prefix, keys) && SameUnder(prefix, typed, flat, keys) && Uses(commands, keys)
    ensures Answers(typed, Itself(), commands) == Answers(flat, ByText(prefix), commands)
    decreases commands
  {
    if commands != [] {
      ExecuteAlike(prefix, typed, flat, keys, commands[0]);
      FlatAnswersAlike(prefix, Execute(typed, Itself(), commands[0]).0,
          Execute(flat, ByText(prefix), commands[0]).0, keys, commands[1..]);
    }
  }

  /** Started empty, the flat space answers every sequence of commands on `keys` as the typed one does. */
  ghost predicate FlatIsTyped(prefix: string, keys: set<RedisKey>) {
    forall commands: seq<Command<int>> :: Uses(commands, keys) ==>
      Answers(map[], Itself(), commands) == Answers(map[], ByText(prefix), commands)
  }

  lemma ClashTells(prefix: string, keys: set<RedisKey>, k: RedisKey, l: RedisKey)
    requires FlatIsTyped(prefix, keys) && k in keys && l in keys && Text(prefix, k) == Text(prefix, l)
    ensures k == l
  {
    var commands := [Put(k, 0), Get(l)];
    assert Uses(commands, keys);
    PutThenGet(Itself(), k, l);
    PutThenGet(ByText(prefix), k, l);
    assert Answers(map[], Itself(), commands)[1] == Answers(map[], ByText(prefix), commands)[1];
  }

  /** That is so if and only if no two of the keys share a text. */
  lemma FlatIsTypedIffNoClash(prefix: string, keys: set<RedisKey>)
    ensures FlatIsTyped(prefix, keys) <==> NoClash(prefix, keys)
  {
    if NoClash(prefix, keys) {
      forall commands: seq<Command<int>> | Uses(commands, keys)
        ensures Answers(map[], Itself(), commands) == Answers(map[], ByText(prefix), commands)
      {
        FlatAnswersAlike(prefix, map[], map[], keys, commands);
      }
    }
    if FlatIsTyped(prefix, keys) {
      forall k, l | k in keys && l in keys && Text(prefix, k) == Text(prefix, l) ensures k == l {
        ClashTells(prefix, keys, k, l);
      }
    }
  }

  lemma PutThenGet<K>(at: RedisKey -> K, k: RedisKey, l: RedisKey)
    ensures Answers<K, int>(map[], at, [Put(k, 0), Get(l)]) == [Nothing, if at(k) == at(l) then Just(0) else Nothing]
  {
    var commands := [Put(k, 0), Get(l)];
    assert commands[1..] == [Get(l)] && commands[1..][1..] == [];
    var next: map<K, int> := map[at(k) := 0];
    assert Answers(next, at, [Get(l)]) == [Execute(next, at, Get(l)).1] + Answers(next, at, []);
  }
}
