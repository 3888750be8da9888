/** The request history: most recent first, without duplicates. */
module History {
  import opened Outcomes
  import opened CommandLine

  /** An entry in memory carries its request; the file keeps the command only. */
  datatype Entry = Entry(command: string, cli: Option<Cli>)

  function Commands(entries: seq<Entry>): seq<string> {
    seq(|entries|, i requires 0 <= i < |entries| => entries[i].command)
  }

  function Retain(entries: seq<Entry>, command: string): seq<Entry> {
    if entries == [] then []
    else (if entries[0].command != command then [entries[0]] else []) + Retain(entries[1..], command)
  }

  function Stored(entries: seq<Entry>): seq<Entry> {
    seq(|entries|, i requires 0 <= i < |entries| => Entry(entries[i].command, None))
  }

  // ---------- The list of commands ----------

  function Without(h: seq<string>, c: string): seq<string> {
    if h == [] then [] else (if h[0] != c then [h[0]] else []) + Without(h[1..], c)
  }

  function Save(h: seq<string>, c: string): seq<string> {
    [c] + Without(h, c)
  }

  function SaveAll(uses: seq<string>): seq<string> {
    if uses == [] then [] else Save(SaveAll(uses[..|uses| - 1]), uses[|uses| - 1])
  }

  ghost predicate NoDuplicates(h: seq<string>) {
    forall i, j | 0 <= i < j < |h| :: h[i] != h[j]
  }

  lemma {:induction false} RetainCommands(entries: seq<Entry>, c: string)
    ensures Commands(Retain(entries, c)) == Without(Commands(entries), c)
  {
    if entries != [] {
      RetainCommands(entries[1..], c);
      assert Commands(entries)[1..] == Commands(entries[1..]);
      var head := if entries[0].command != c then [entries[0]] else [];
      assert Commands(head + Retain(entries[1..], c)) == Commands(head) + Commands(Retain(entries[1..], c));
    }
  }

  /** What is at the history path: nothing, a file that cannot be read, text that is no history, or
      a history. */
  datatype Content = Missing | Unreadable | Malformed | Saved(entries: seq<Entry>)

  datatype LoadError = NotReadable

  /** Everything but a history counts as an empty one. */
  function EntriesOf(content: Content): seq<Entry> {
    if content.Saved? then content.entries else []
  }

  class HistoryFile {
    var content: Content

    function Lines(): seq<string>
      reads this
    {
      Commands(EntriesOf(content))
    }

    constructor ()
      ensures content == Missing
    {
      content := Missing;
    }

    method LoadEntries() returns (r: Result<seq<Entry>, LoadError>)
      ensures r == if content.Unreadable? then Err(NotReadable) else Ok(EntriesOf(content))
    {
      match content {
        case Missing => r := Ok([]);
        case Unreadable => r := Err(NotReadable);
        case Malformed => r := Ok([]);
        case Saved(entries) => r := Ok(entries);
      }
    }

    /** The commands for display; only a file that cannot be read is an error. */
    method Load() returns (r: Result<seq<string>, LoadError>)
      ensures r.Err? <==> content.Unreadable?
      ensures content.Missing? || content.Malformed? ==> r == Ok([])
      ensures content.Saved? ==> r.Ok? && |r.value| == |content.entries|
      ensures content.Saved? ==> forall i | 0 <= i < |r.value| :: r.value[i] == content.entries[i].command
    {
      var entries :- LoadEntries();
      var commands: seq<string> := [];
      for i := 0 to |entries|
        invariant |commands| == i && forall k | 0 <= k < i :: commands[k] == entries[k].command
      {
        commands := commands + [entries[i].command];
      }
      r := Ok(commands);
    }

    /** Whatever was there before, the file then holds a history with this command in front. */
    method SaveRequest(command: string, cli: Cli)
      modifies this
      ensures content.Saved? && forall e | e in content.entries :: e.cli.None?
      ensures Lines() == Save(old(Lines()), command)
      ensures content.entries != [] && content.entries[0].command == command
      ensures !old(content).Saved? ==> |content.entries| == 1
    {
      var loaded := LoadEntries();
      var history := if loaded.Ok? then loaded.value else [];
      RetainCommands(history, command);
      var others := Retain(history, command);
      history := [Entry(command, Some(cli))] + others;
      assert Commands(history) == [command] + Commands(others);
      content := Saved(Stored(history));
      assert Commands(content.entries) == Commands(history);
      assert Commands(content.entries)[0] == command;
    }
  }

  // ---------- What one save keeps ----------

  lemma {:induction false} WithoutMembers(h: seq<string>, c: string)
    ensures forall x :: x in Without(h, c) <==> x in h && x != c
  {
    if h != [] {
      WithoutMembers(h[1..], c);
    }
  }

  lemma {:induction false} WithoutAbsent(h: seq<string>, c: string)
    requires c !in h
    ensures Without(h, c) == h
  {
    if h != [] {
      WithoutAbsent(h[1..], c);
    }
  }

  lemma {:induction false} WithoutConcat(a: seq<string>, b: seq<string>, c: string)
    ensures Without(a + b, c) == Without(a, c) + Without(b, c)
  {
    if a == [] {
      assert a + b == b;
    } else {
      assert (a + b)[0] == a[0] && (a + b)[1..] == a[1..] + b;
      WithoutConcat(a[1..], b, c);
    }
  }

  lemma ConsNoDuplicates(x: string, t: seq<string>)
    requires NoDuplicates(t) && x !in t
    ensures NoDuplicates([x] + t)
  {
    var h := [x] + t;
    forall i, j | 0 <= i < j < |h|
      ensures h[i] != h[j]
    {
      assert h[j] == t[j - 1];
      assert i > 0 ==> h[i] == t[i - 1];
    }
  }

  lemma {:induction false} WithoutNoDuplicates(h: seq<string>, c: string)
    requires NoDuplicates(h)
    ensures NoDuplicates(Without(h, c))
  {
    if h != [] {
      WithoutNoDuplicates(h[1..], c);
      WithoutMembers(h[1..], c);
      if h[0] != c {
        ConsNoDuplicates(h[0], Without(h[1..], c));
      }
    }
  }

  lemma WithoutMiddle(a: seq<string>, c: string, b: seq<string>)
    requires c !in a && c !in b
    ensures Without(a + ([c] + b), c) == a + b
  {
    WithoutConcat(a, [c] + b, c);
    WithoutConcat([c], b, c);
    WithoutAbsent(a, c);
    WithoutAbsent(b, c);
    assert [c][1..] == [] && [] + b == b;
  }

  /** Saving an entry already present moves it to the front and leaves the others in order. */
  lemma SaveMoves(h: seq<string>, i: nat)
    requires NoDuplicates(h) && i < |h|
    ensures Save(h, h[i]) == [h[i]] + h[..i] + h[i + 1..]
    ensures multiset(Save(h, h[i])) == multiset(h)
  {
    hide Without;
    assert h == h[..i] + ([h[i]] + h[i + 1..]);
    WithoutMiddle(h[..i], h[i], h[i + 1..]);
    assert [h[i]] + (h[..i] + h[i + 1..]) == [h[i]] + h[..i] + h[i + 1..];
  }

  lemma SaveKeepsNoDuplicates(h: seq<string>, c: string)
    requires NoDuplicates(h)
    ensures NoDuplicates(Save(h, c))
  {
    WithoutNoDuplicates(h, c);
    WithoutMembers(h, c);
    ConsNoDuplicates(c, Without(h, c));
  }

  // ---------- Any sequence of saves ----------

  /** The position of the last use of a command. */
  function LastUse(uses: seq<string>, c: string): (n: nat)
    requires c in uses
    ensures n < |uses| && uses[n] == c && c !in uses[n + 1..]
  {
    var last := |uses| - 1;
    if uses[last] == c then last
    else
      assert uses == uses[..last] + [uses[last]];
      var n := LastUse(uses[..last], c);
      assert uses[n + 1..] == uses[..last][n + 1..] + [uses[last]];
      n
  }

  /** Exactly the commands used, each once, the most recently used first. */
  ghost predicate IsMostRecentFirst(h: seq<string>, uses: seq<string>) {
    && (forall c :: c in h <==> c in uses)
    && IsByLastUse(h, uses)
  }

  /** Each entry was used, and used later than every entry after it. */
  ghost predicate IsByLastUse(h: seq<string>, uses: seq<string>) {
    h == [] ||
    (h[0] in uses &&
     (forall c | c in h[1..] :: c in uses && LastUse(uses, h[0]) > LastUse(uses, c)) &&
     IsByLastUse(h[1..], uses))
  }

  lemma {:induction false} SaveAllIsMostRecentFirst(uses: seq<string>)
    ensures IsMostRecentFirst(SaveAll(uses), uses)
  {
    if uses != [] {
      var last := |uses| - 1;
      var before, u := uses[..last], uses[last];
      var h := SaveAll(before);
      SaveAllIsMostRecentFirst(before);
      assert uses == before + [u];
      WithoutMembers(h, u);
      WithoutByLastUse(h, u, before);
      ByLastUseExtends(Without(h, u), before, u);
      assert Save(h, u)[1..] == Without(h, u);
    }
  }

  lemma ByLastUseCons(x: string, t: seq<string>, uses: seq<string>)
    requires IsByLastUse(t, uses) && x in uses
    requires forall c | c in t :: c in uses && LastUse(uses, x) > LastUse(uses, c)
    ensures IsByLastUse([x] + t, uses)
  {
    hide LastUse;
    assert ([x] + t)[1..] == t;
  }

  lemma {:induction false} WithoutByLastUse(h: seq<string>, c: string, uses: seq<string>)
    requires IsByLastUse(h, uses)
    ensures IsByLastUse(Without(h, c), uses)
  {
    if h != [] {
      WithoutByLastUse(h[1..], c, uses);
      WithoutMembers(h[1..], c);
      if h[0] != c {
        ByLastUseCons(h[0], Without(h[1..], c), uses);
      } else {
        assert [] + Without(h[1..], c) == Without(h[1..], c);
      }
    }
  }

  /** One more use of a command leaves the last uses of the others where they were. */
  lemma {:induction false} ByLastUseExtends(h: seq<string>, before: seq<string>, u: string)
    requires IsByLastUse(h, before) && u !in h
    ensures IsByLastUse(h, before + [u])
    ensures forall c | c in h :: c in before && LastUse(before + [u], c) == LastUse(before, c)
  {
    if h != [] {
      assert h == [h[0]] + h[1..];
      ByLastUseExtends(h[1..], before, u);
    }
  }

  lemma HasMember(h: seq<string>)
    requires h != []
    ensures exists c :: c in h
  {
    assert h[0] in h;
  }

  lemma {:induction false} ByLastUseIsUnique(a: seq<string>, b: seq<string>, uses: seq<string>)
    requires IsByLastUse(a, uses) && IsByLastUse(b, uses)
    requires forall c :: c in a <==> c in b
    ensures a == b
  {
    if a == [] {
      if b != [] {
        HasMember(b);
      }
    } else {
      assert a[0] in b;
      assert a == [a[0]] + a[1..] && b == [b[0]] + b[1..];
      assert b[0] in b && b[0] in a && a[0] in b;
      assert a[0] == b[0];
      forall c
        ensures c in a[1..] <==> c in b[1..]
      {
        assert c in a <==> c == a[0] || c in a[1..];
        assert c in b <==> c == b[0] || c in b[1..];
      }
      ByLastUseIsUnique(a[1..], b[1..], uses);
    }
  }

  /** After any sequence of saves from an empty store, the history is the one list of the distinct
      commands ordered by last use. */
  lemma HistoryExactly(h: seq<string>, uses: seq<string>)
    ensures h == SaveAll(uses) <==> IsMostRecentFirst(h, uses)
  {
    SaveAllIsMostRecentFirst(uses);
    if IsMostRecentFirst(h, uses) {
      ByLastUseIsUnique(h, SaveAll(uses), uses);
    }
  }

  lemma {:induction false} MostRecentFirstHasNoDuplicates(h: seq<string>, uses: seq<string>)
    requires IsByLastUse(h, uses)
    ensures NoDuplicates(h)
  {
    if h != [] {
      MostRecentFirstHasNoDuplicates(h[1..], uses);
      ConsNoDuplicates(h[0], h[1..]);
      assert h == [h[0]] + h[1..];
    }
  }
}
