/** Payloads stripped of session secrets before they reach a browser
    (apps/dashboard/lib/request-security.js). */
module SafePayload {
  import opened Text
  import opened Json

  const SECRET_KEYS: seq<string> := ["token", "accesstoken", "refreshtoken", "sessiontoken", "idtoken", "jwt"]

  predicate IsAlnum(c: char) {
    'A' <= c <= 'Z' || IsLowerAlnum(c)
  }

  function KeepAlnum(s: string): string {
    if s == [] then [] else (if IsAlnum(s[0]) then [s[0]] else []) + KeepAlnum(s[1..])
  }

  predicate Secret(key: string) {
    Lower(KeepAlnum(key)) in SECRET_KEYS
  }

  // ---------------------------------------------------------------- the simple form

  /** The payload without its secret members, at every depth. */
  function Strip(j: Json): Json
    decreases j
  {
    match j
    case Arr(items) => Arr(StripItems(items))
    case Obj(members) => Obj(StripMembers(members))
    case _ => j
  }

  function StripItems(items: seq<Json>): (r: seq<Json>)
    ensures |r| == |items|
    decreases items
  {
    if items == [] then [] else [Strip(items[0])] + StripItems(items[1..])
  }

  function StripMembers(members: seq<(string, Json)>): seq<(string, Json)>
    decreases members
  {
    if members == [] then []
    else (if Secret(members[0].0) then [] else [StripValue(members[0])]) + StripMembers(members[1..])
  }

  function StripValue(member: (string, Json)): (string, Json)
    decreases member
  {
    (member.0, Strip(member.1))
  }

  function Size(j: Json): (n: nat)
    ensures n >= 1
    decreases j
  {
    match j
    case Arr(items) => 1 + SizeItems(items)
    case Obj(members) => 1 + SizeMembers(members)
    case _ => 1
  }

  function SizeItems(items: seq<Json>): nat
    decreases items
  {
    if items == [] then 0 else Size(items[0]) + SizeItems(items[1..])
  }

  function SizeMembers(members: seq<(string, Json)>): nat
    decreases members
  {
    if members == [] then 0 else SizeValue(members[0]) + SizeMembers(members[1..])
  }

  function SizeValue(member: (string, Json)): nat
    decreases member
  {
    Size(member.1)
  }

  // ---------------------------------------------------------------- the entries of a container

  predicate Container(j: Json) {
    j.Arr? || j.Obj?
  }

  /** The keys of a container with their values; an array's keys are its indices in decimal. */
  function Entries(j: Json): seq<(string, Json)> {
    match j
    case Arr(items) => seq(|items|, i requires 0 <= i < |items| => (Decimal(i), items[i]))
    case Obj(members) => members
    case _ => []
  }

  function Kept(entries: seq<(string, Json)>): seq<(string, Json)> {
    if entries == [] then []
    else
      var last := entries[|entries| - 1];
      Kept(entries[..|entries| - 1]) + (if Secret(last.0) then [] else [last])
  }

  function Values(entries: seq<(string, Json)>): seq<Json> {
    seq(|entries|, i requires 0 <= i < |entries| => entries[i].1)
  }

  function StripAll(entries: seq<(string, Json)>): seq<(string, Json)> {
    seq(|entries|, i requires 0 <= i < |entries| => (entries[i].0, Strip(entries[i].1)))
  }

  function Build(isArray: bool, entries: seq<(string, Json)>): Json {
    if isArray then Arr(Values(entries)) else Obj(entries)
  }

  lemma {:induction false} DigitsAreKept(s: string)
    requires forall i :: 0 <= i < |s| ==> IsDigit(s[i])
    ensures KeepAlnum(s) == s && Lower(s) == s
  {
    if s != [] {
      DigitsAreKept(s[1..]);
      assert s == [s[0]] + s[1..];
    }
  }

  lemma IndexIsNotSecret(i: nat)
    ensures !Secret(Decimal(i))
  {
    var d := Decimal(i);
    DigitsAreKept(d);
    assert IsDigit(d[0]);
    assert forall k :: 0 <= k < |SECRET_KEYS| ==> SECRET_KEYS[k] != [] && !IsDigit(SECRET_KEYS[k][0]);
  }

  lemma {:induction false} NothingSecretKept(entries: seq<(string, Json)>)
    requires forall i :: 0 <= i < |entries| ==> !Secret(entries[i].0)
    ensures Kept(entries) == entries
  {
    if entries != [] {
      NothingSecretKept(entries[..|entries| - 1]);
      assert entries == entries[..|entries| - 1] + [entries[|entries| - 1]];
    }
  }

  lemma {:induction false} StripItemsAre(items: seq<Json>)
    ensures forall i :: 0 <= i < |items| ==> StripItems(items)[i] == Strip(items[i])
  {
    if items != [] {
      StripItemsAre(items[1..]);
    }
  }

  lemma {:induction false} KeptCons(member: (string, Json), rest: seq<(string, Json)>)
    ensures Kept([member] + rest) == (if Secret(member.0) then [] else [member]) + Kept(rest)
  {
    var all := [member] + rest;
    if rest == [] {
      assert all[..|all| - 1] == [];
    } else {
      KeptCons(member, rest[..|rest| - 1]);
      assert all[..|all| - 1] == [member] + rest[..|rest| - 1];
    }
  }

  lemma {:induction false} StripMembersAre(members: seq<(string, Json)>)
    ensures StripMembers(members) == StripAll(Kept(members))
  {
    if members != [] {
      StripMembersAre(members[1..]);
      assert members == [members[0]] + members[1..];
      KeptCons(members[0], members[1..]);
    }
  }

  /** The recursive form and the form over kept entries agree. */
  lemma StripByEntries(j: Json)
    requires Container(j)
    ensures Strip(j) == Build(j.Arr?, StripAll(Kept(Entries(j))))
  {
    match j
    case Arr(items) =>
      forall i | 0 <= i < |items| ensures !Secret(Entries(j)[i].0) {
        IndexIsNotSecret(i);
      }
      NothingSecretKept(Entries(j));
      StripItemsAre(items);
      assert StripItems(items) == Values(StripAll(Entries(j)));
    case Obj(members) =>
      StripMembersAre(members);
  }

  // ---------------------------------------------------------------- output objects and the work stack

  /** An output object holds leaves and references to output objects by address. */
  datatype Slot = Leaf(value: Json) | Child(address: nat)

  datatype Cell = Cell(isArray: bool, members: seq<(string, Slot)>)

  type Work = (Json, nat)

  predicate LinkedCell(cell: Cell, a: nat, size: nat) {
    forall i :: 0 <= i < |cell.members| && cell.members[i].1.Child? ==> a < cell.members[i].1.address < size
  }

  /** References only lead to younger objects. */
  predicate Linked(arena: seq<Cell>) {
    forall a :: 0 <= a < |arena| ==> LinkedCell(arena[a], a, |arena|)
  }

  /** The source still to be copied into address `a`. */
  function SourceOf(pending: seq<Work>, a: nat): Option<Json> {
    if pending == [] then None
    else
      var last := pending[|pending| - 1];
      if last.1 == a then Some(last.0) else SourceOf(pending[..|pending| - 1], a)
  }

  /** What the object at `a` will be once the pending work is done. */
  function Final(arena: seq<Cell>, pending: seq<Work>, a: nat): Json
    requires Linked(arena) && a < |arena|
    decreases |arena| - a, 1
  {
    var source := SourceOf(pending, a);
    if source.Some? then Strip(source.value) else Build(arena[a].isArray, FinalEntries(arena, pending, a))
  }

  function FinalEntries(arena: seq<Cell>, pending: seq<Work>, a: nat): seq<(string, Json)>
    requires Linked(arena) && a < |arena|
    decreases |arena| - a, 0
  {
    var members := arena[a].members;
    assert LinkedCell(arena[a], a, |arena|);
    seq(|members|, i requires 0 <= i < |members| =>
      (members[i].0, match members[i].1
                     case Leaf(v) => v
                     case Child(c) => Final(arena, pending, c)))
  }

  /** The value an output object holds, read off the objects alone. */
  function Read(arena: seq<Cell>, a: nat): Json
    requires Linked(arena) && a < |arena|
    decreases |arena| - a, 1
  {
    Build(arena[a].isArray, ReadEntries(arena, a))
  }

  function ReadEntries(arena: seq<Cell>, a: nat): seq<(string, Json)>
    requires Linked(arena) && a < |arena|
    decreases |arena| - a, 0
  {
    var members := arena[a].members;
    assert LinkedCell(arena[a], a, |arena|);
    seq(|members|, i requires 0 <= i < |members| =>
      (members[i].0, match members[i].1
                     case Leaf(v) => v
                     case Child(c) => Read(arena, c)))
  }

  /** With nothing pending, the objects hold their final values. */
  lemma {:induction false} NothingPending(arena: seq<Cell>, a: nat)
    requires Linked(arena) && a < |arena|
    ensures Read(arena, a) == Final(arena, [], a)
    decreases |arena| - a
  {
    var members := arena[a].members;
    assert LinkedCell(arena[a], a, |arena|);
    forall i | 0 <= i < |members| && members[i].1.Child?
      ensures Read(arena, members[i].1.address) == Final(arena, [], members[i].1.address)
    {
      NothingPending(arena, members[i].1.address);
    }
    assert ReadEntries(arena, a) == FinalEntries(arena, [], a);
  }

  function Pushed(kids: seq<Json>, base: nat): seq<Work> {
    seq(|kids|, j requires 0 <= j < |kids| => (kids[j], base + j))
  }

  function Containers(entries: seq<(string, Json)>): seq<Json> {
    if entries == [] then []
    else
      var last := entries[|entries| - 1];
      Containers(entries[..|entries| - 1]) + (if Container(last.1) then [last.1] else [])
  }

  /** The slot that stands for an entry, when the new objects for `kids` start at `base`. */
  predicate SlotFor(entry: (string, Json), member: (string, Slot), kids: seq<Json>, base: nat) {
    && member.0 == entry.0
    && if Container(entry.1)
       then member.1.Child? && base <= member.1.address < base + |kids| && kids[member.1.address - base] == entry.1
       else member.1 == Leaf(entry.1)
  }

  /** The arena after the entries `kept` were copied into `target`. */
  ghost predicate Copied(before: seq<Cell>, arena: seq<Cell>, target: nat, kept: seq<(string, Json)>, kids: seq<Json>)
    requires target < |before|
  {
    && |arena| == |before| + |kids|
    && (forall b :: 0 <= b < |before| && b != target ==> arena[b] == before[b])
    && arena[target].isArray == before[target].isArray
    && |arena[target].members| == |kept|
    && (forall k :: 0 <= k < |kept| ==> SlotFor(kept[k], arena[target].members[k], kids, |before|))
    && (forall j :: 0 <= j < |kids| ==> arena[|before| + j] == Cell(kids[j].Arr?, []) && Container(kids[j]))
  }

  lemma CopyEntry(before: seq<Cell>, arena: seq<Cell>, target: nat, kept: seq<(string, Json)>, kids: seq<Json>,
                  entry: (string, Json), kids': seq<Json>)
    requires target < |before| && Copied(before, arena, target, kept, kids)
    requires kids' == kids + if Container(entry.1) then [entry.1] else []
    ensures Copied(before, Define(arena, target, entry), target, kept + [entry], kids')
  {
    var kept', grown := kept + [entry], Define(arena, target, entry);
    var members := arena[target].members;
    assert grown[target].members[..|kept|] == members;
    forall k | 0 <= k < |kept'| ensures SlotFor(kept'[k], grown[target].members[k], kids', |before|) {
      if k < |kept| {
        assert SlotFor(kept[k], members[k], kids, |before|);
      }
    }
  }

  // ---------------------------------------------------------------- one round keeps the final value

  lemma {:induction false} SourceOfPushed(pending: seq<Work>, kids: seq<Json>, base: nat, a: nat)
    ensures SourceOf(pending + Pushed(kids, base), a)
         == if base <= a < base + |kids| then Some(kids[a - base]) else SourceOf(pending, a)
    decreases |kids|
  {
    var all := pending + Pushed(kids, base);
    if kids == [] {
      assert all == pending;
    } else {
      SourceOfPushed(pending, kids[..|kids| - 1], base, a);
      assert all[..|all| - 1] == pending + Pushed(kids[..|kids| - 1], base);
    }
  }

  lemma {:induction false} SourceOfNone(pending: seq<Work>, a: nat)
    requires forall i :: 0 <= i < |pending| ==> pending[i].1 != a
    ensures SourceOf(pending, a) == None
  {
    if pending != [] {
      SourceOfNone(pending[..|pending| - 1], a);
    }
  }

  lemma SourceOfPopped(rest: seq<Work>, source: Json, target: nat, a: nat)
    ensures SourceOf(rest + [(source, target)], a) == if a == target then Some(source) else SourceOf(rest, a)
  {
    var all := rest + [(source, target)];
    assert all[..|all| - 1] == rest;
  }

  lemma CopiedLinked(before: seq<Cell>, arena: seq<Cell>, target: nat, kept: seq<(string, Json)>, kids: seq<Json>)
    requires target < |before| && Linked(before) && Copied(before, arena, target, kept, kids)
    ensures Linked(arena)
  {
    forall a | 0 <= a < |arena| ensures LinkedCell(arena[a], a, |arena|) {
      if a == target {
        forall i | 0 <= i < |arena[a].members| && arena[a].members[i].1.Child?
          ensures a < arena[a].members[i].1.address < |arena|
        {
          assert SlotFor(kept[i], arena[a].members[i], kids, |before|);
        }
      } else if a < |before| {
        assert LinkedCell(before[a], a, |before|);
      } else {
        assert Container(kids[a - |before|]);
      }
    }
  }

  /** The state after one round of the outer loop. */
  ghost predicate Round(before: seq<Cell>, rest: seq<Work>, source: Json, target: nat, arena: seq<Cell>,
                        kids: seq<Json>) {
    && target < |before| && Linked(before) && Linked(arena) && Container(source)
    && before[target].isArray == source.Arr?
    && Copied(before, arena, target, Kept(Entries(source)), kids)
    && (forall i :: 0 <= i < |rest| ==> rest[i].1 < target)
  }

  lemma {:induction false} FinalOfTarget(before: seq<Cell>, rest: seq<Work>, source: Json, target: nat,
                                         arena: seq<Cell>, kids: seq<Json>)
    requires Round(before, rest, source, target, arena, kids)
    ensures Final(arena, rest + Pushed(kids, |before|), target) == Strip(source)
  {
    var pending, kept := rest + Pushed(kids, |before|), Kept(Entries(source));
    SourceOfNone(rest, target);
    SourceOfPushed(rest, kids, |before|, target);
    var members := arena[target].members;
    forall k | 0 <= k < |kept| && members[k].1.Child?
      ensures Final(arena, pending, members[k].1.address) == Strip(kept[k].1)
    {
      assert SlotFor(kept[k], members[k], kids, |before|);
      SourceOfPushed(rest, kids, |before|, members[k].1.address);
    }
    assert forall k :: 0 <= k < |kept| ==> SlotFor(kept[k], members[k], kids, |before|);
    assert FinalEntries(arena, pending, target) == StripAll(kept);
    StripByEntries(source);
  }

  lemma {:induction false} FinalKept(before: seq<Cell>, rest: seq<Work>, source: Json, target: nat, arena: seq<Cell>,
                                     kids: seq<Json>, a: nat)
    requires Round(before, rest, source, target, arena, kids) && a < |before|
    ensures Final(arena, rest + Pushed(kids, |before|), a) == Final(before, rest + [(source, target)], a)
    decreases |before| - a
  {
    var pending, was := rest + Pushed(kids, |before|), rest + [(source, target)];
    SourceOfPopped(rest, source, target, a);
    SourceOfPushed(rest, kids, |before|, a);
    if a == target {
      FinalOfTarget(before, rest, source, target, arena, kids);
    } else if SourceOf(rest, a).None? {
      assert LinkedCell(before[a], a, |before|);
      forall i | 0 <= i < |before[a].members| && before[a].members[i].1.Child?
        ensures Final(arena, pending, before[a].members[i].1.address)
             == Final(before, was, before[a].members[i].1.address)
      {
        FinalKept(before, rest, source, target, arena, kids, before[a].members[i].1.address);
      }
      assert FinalEntries(arena, pending, a) == FinalEntries(before, was, a);
    }
  }

  // ---------------------------------------------------------------- termination of the work stack

  function Total(pending: seq<Work>): nat {
    if pending == [] then 0 else Total(pending[..|pending| - 1]) + Size(pending[|pending| - 1].0)
  }

  function SizeOf(entries: seq<(string, Json)>): nat {
    if entries == [] then 0 else SizeOf(entries[..|entries| - 1]) + Size(entries[|entries| - 1].1)
  }

  lemma {:induction false} SizeOfCons(member: (string, Json), rest: seq<(string, Json)>)
    ensures SizeOf([member] + rest) == Size(member.1) + SizeOf(rest)
  {
    var all := [member] + rest;
    if rest == [] {
      assert all[..|all| - 1] == [];
    } else {
      SizeOfCons(member, rest[..|rest| - 1]);
      assert all[..|all| - 1] == [member] + rest[..|rest| - 1];
    }
  }

  lemma {:induction false} SizeMembersIs(members: seq<(string, Json)>)
    ensures SizeMembers(members) == SizeOf(members)
  {
    if members != [] {
      SizeMembersIs(members[1..]);
      assert members == [members[0]] + members[1..];
      SizeOfCons(members[0], members[1..]);
    }
  }

  lemma {:induction false} SizeItemsIs(items: seq<Json>, entries: seq<(string, Json)>)
    requires |entries| == |items| && forall i :: 0 <= i < |items| ==> entries[i].1 == items[i]
    ensures SizeItems(items) == SizeOf(entries)
  {
    if items != [] {
      SizeItemsIs(items[1..], entries[1..]);
      assert entries == [entries[0]] + entries[1..];
      SizeOfCons(entries[0], entries[1..]);
    }
  }

  lemma SizeOfEntries(j: Json)
    requires Container(j)
    ensures Size(j) == 1 + SizeOf(Entries(j))
  {
    match j
    case Arr(items) => SizeItemsIs(items, Entries(j));
    case Obj(members) => SizeMembersIs(members);
  }

  function SizeAll(kids: seq<Json>): nat {
    if kids == [] then 0 else SizeAll(kids[..|kids| - 1]) + Size(kids[|kids| - 1])
  }

  lemma KeptSnoc(front: seq<(string, Json)>, entry: (string, Json))
    ensures Kept(front + [entry]) == Kept(front) + if Secret(entry.0) then [] else [entry]
  {
    assert (front + [entry])[..|front|] == front;
  }

  lemma ContainersSnoc(front: seq<(string, Json)>, entry: (string, Json))
    ensures Containers(front + [entry]) == Containers(front) + if Container(entry.1) then [entry.1] else []
  {
    assert (front + [entry])[..|front|] == front;
  }

  lemma SizeAllSnoc(front: seq<Json>, kid: Json)
    ensures SizeAll(front + [kid]) == SizeAll(front) + Size(kid)
  {
    assert (front + [kid])[..|front|] == front;
  }

  lemma {:induction false} ContainersFit(entries: seq<(string, Json)>)
    ensures SizeAll(Containers(Kept(entries))) <= SizeOf(entries)
  {
    if entries != [] {
      var front, last := entries[..|entries| - 1], entries[|entries| - 1];
      ContainersFit(front);
      assert entries == front + [last];
      KeptSnoc(front, last);
      if !Secret(last.0) && Container(last.1) {
        ContainersSnoc(Kept(front), last);
        SizeAllSnoc(Containers(Kept(front)), last.1);
      } else if !Secret(last.0) {
        ContainersSnoc(Kept(front), last);
        assert Containers(Kept(entries)) == Containers(Kept(front));
      } else {
        assert Kept(entries) == Kept(front);
      }
    }
  }

  lemma {:induction false} TotalPushed(rest: seq<Work>, kids: seq<Json>, base: nat)
    ensures Total(rest + Pushed(kids, base)) == Total(rest) + SizeAll(kids)
    decreases |kids|
  {
    var all := rest + Pushed(kids, base);
    if kids == [] {
      assert all == rest;
    } else {
      TotalPushed(rest, kids[..|kids| - 1], base);
      assert all[..|all| - 1] == rest + Pushed(kids[..|kids| - 1], base);
    }
  }

  lemma RoundShrinks(rest: seq<Work>, source: Json, kids: seq<Json>, base: nat)
    requires Container(source) && kids == Containers(Kept(Entries(source)))
    ensures Total(rest + Pushed(kids, base)) < Total(rest) + Size(source)
  {
    TotalPushed(rest, kids, base);
    ContainersFit(Entries(source));
    SizeOfEntries(source);
  }

  // ---------------------------------------------------------------- the copying loops

  /** The entries copied so far, and the stack. */
  ghost predicate Copying(before: seq<Cell>, rest: seq<Work>, entries: seq<(string, Json)>, target: nat,
                          arena: seq<Cell>, pending: seq<Work>)
    requires target < |before|
  {
    var kept := Kept(entries);
    Copied(before, arena, target, kept, Containers(kept)) && pending == rest + Pushed(Containers(kept), |before|)
  }

  /** A member defined on `target`: the value itself, or a new empty object for a container. */
  function Define(arena: seq<Cell>, target: nat, entry: (string, Json)): seq<Cell>
    requires target < |arena|
  {
    var cell := arena[target];
    if Container(entry.1)
    then arena[target := cell.(members := cell.members + [(entry.0, Child(|arena|))])] + [Cell(entry.1.Arr?, [])]
    else arena[target := cell.(members := cell.members + [(entry.0, Leaf(entry.1))])]
  }

  lemma CopyStep(before: seq<Cell>, rest: seq<Work>, front: seq<(string, Json)>, entry: (string, Json), target: nat,
                 was: seq<Cell>, pending: seq<Work>, arena: seq<Cell>)
    requires target < |before| && Copying(before, rest, front, target, was, pending) && !Secret(entry.0)
    requires arena == Define(was, target, entry)
    ensures Copying(before, rest, front + [entry], target, arena,
                    pending + if Container(entry.1) then [(entry.1, |was|)] else [])
  {
    var kept := Kept(front);
    KeptSnoc(front, entry);
    ContainersSnoc(kept, entry);
    var kids, kids' := Containers(kept), Containers(kept + [entry]);
    CopyEntry(before, was, target, kept, kids, entry, kids');
    StackGrows(rest, kids, entry, |before|);
  }

  lemma StackGrows(rest: seq<Work>, kids: seq<Json>, entry: (string, Json), base: nat)
    ensures var kids' := kids + if Container(entry.1) then [entry.1] else [];
      rest + Pushed(kids', base)
      == rest + Pushed(kids, base) + if Container(entry.1) then [(entry.1, base + |kids|)] else []
  {
    PushedSnoc(kids, entry.1, base);
    assert kids + [] == kids;
    assert rest + Pushed(kids, base) + [] == rest + Pushed(kids, base);
  }

  lemma PushedSnoc(kids: seq<Json>, kid: Json, base: nat)
    ensures Pushed(kids + [kid], base) == Pushed(kids, base) + [(kid, base + |kids|)]
  {
  }

  lemma CopyStart(before: seq<Cell>, rest: seq<Work>, entries: seq<(string, Json)>, target: nat)
    requires target < |before| && before[target].members == []
    ensures Copying(before, rest, entries[..0], target, before, rest)
  {
    assert Kept(entries[..0]) == [];
    assert rest + Pushed([], |before|) == rest;
  }

  function StackOn(pending: seq<Work>, entry: (string, Json), address: nat): seq<Work> {
    pending + if Container(entry.1) then [(entry.1, address)] else []
  }

  lemma CopyRound(before: seq<Cell>, rest: seq<Work>, entries: seq<(string, Json)>, i: nat, target: nat,
                  arena: seq<Cell>, pending: seq<Work>)
    requires target < |before| && i < |entries| && Copying(before, rest, entries[..i], target, arena, pending)
    ensures target < |arena|
    ensures if Secret(entries[i].0) then Copying(before, rest, entries[..i + 1], target, arena, pending)
            else Copying(before, rest, entries[..i + 1], target, Define(arena, target, entries[i]),
                         StackOn(pending, entries[i], |arena|))
  {
    assert entries[..i + 1] == entries[..i] + [entries[i]];
    if Secret(entries[i].0) {
      KeptSnoc(entries[..i], entries[i]);
      assert Kept(entries[..i + 1]) == Kept(entries[..i]);
    } else {
      CopyStep(before, rest, entries[..i], entries[i], target, arena, pending, Define(arena, target, entries[i]));
    }
  }

  /** The inner loop: every entry that is not secret goes to `target`; containers get a new empty
      object and wait on the stack. */
  method CopyMembers(before: seq<Cell>, rest: seq<Work>, source: Json, target: nat)
    returns (arena: seq<Cell>, pending: seq<Work>)
    requires target < |before| && before[target].members == []
    ensures Copying(before, rest, Entries(source), target, arena, pending)
  {
    arena, pending := before, rest;
    var entries := Entries(source);
    CopyStart(before, rest, entries, target);
    for i := 0 to |entries|
      invariant Copying(before, rest, entries[..i], target, arena, pending)
    {
      CopyRound(before, rest, entries, i, target, arena, pending);
      if Secret(entries[i].0) {
        continue;
      }
      pending := StackOn(pending, entries[i], |arena|);
      arena := Define(arena, target, entries[i]);
    }
    assert entries[..|entries|] == entries;
  }

  // ---------------------------------------------------------------- the whole function

  /** The stack is ascending in address, and what waits on it has an empty object of its own kind. */
  ghost predicate Waiting(arena: seq<Cell>, pending: seq<Work>) {
    && (forall i, j :: 0 <= i < j < |pending| ==> pending[i].1 < pending[j].1)
    && (forall i :: 0 <= i < |pending| ==> Ready(arena, pending[i]))
  }

  ghost predicate Ready(arena: seq<Cell>, work: Work) {
    work.1 < |arena| && Container(work.0) && arena[work.1] == Cell(work.0.Arr?, [])
  }

  lemma WaitingKept(before: seq<Cell>, rest: seq<Work>, source: Json, target: nat, arena: seq<Cell>, kids: seq<Json>)
    requires Round(before, rest, source, target, arena, kids) && Waiting(before, rest)
    ensures Waiting(arena, rest + Pushed(kids, |before|))
  {
    var pending := rest + Pushed(kids, |before|);
    forall i | 0 <= i < |pending| ensures Ready(arena, pending[i]) {
      if i < |rest| {
        assert Ready(before, rest[i]);
      } else {
        assert Container(kids[i - |rest|]);
      }
    }
  }

  /** What holds between rounds: the final value of the output is the stripped payload. */
  ghost predicate Progress(arena: seq<Cell>, pending: seq<Work>, payload: Json) {
    arena != [] && Linked(arena) && Waiting(arena, pending) && Final(arena, pending, 0) == Strip(payload)
  }

  lemma RoundKeepsProgress(before: seq<Cell>, rest: seq<Work>, source: Json, target: nat, payload: Json,
                           arena: seq<Cell>, pending: seq<Work>)
    requires Progress(before, rest + [(source, target)], payload) && target < |before|
    requires Copying(before, rest, Entries(source), target, arena, pending)
    ensures Progress(arena, pending, payload) && Total(pending) < Total(rest + [(source, target)])
  {
    var was, kids := rest + [(source, target)], Containers(Kept(Entries(source)));
    assert was[|rest|] == (source, target) && Ready(before, was[|rest|]);
    forall i | 0 <= i < |rest| ensures rest[i].1 < target && Ready(before, rest[i]) {
      assert was[i] == rest[i];
    }
    CopiedLinked(before, arena, target, Kept(Entries(source)), kids);
    WaitingKept(before, rest, source, target, arena, kids);
    FinalKept(before, rest, source, target, arena, kids, 0);
    RoundShrinks(rest, source, kids, |before|);
    assert was[..|was| - 1] == rest;
  }

  /** The work-stack copy computes the recursive form. In its output no path goes through a spelling of
      a secret name, and along every other path there is what was there before. */
  method BrowserSafePayload(payload: Json) returns (output: Json)
    ensures output == Strip(payload)
    ensures forall path :: ThroughHidden(path) ==> At(output, path) == None
    ensures forall path :: !ThroughHidden(path) ==> SameThere(At(payload, path), At(output, path))
  {
    forall path ensures ThroughHidden(path) ==> At(Strip(payload), path) == None
      ensures !ThroughHidden(path) ==> SameThere(At(payload, path), At(Strip(payload), path))
    {
      HiddenNeverReached(payload, path);
    }
    if !Container(payload) {
      return payload;
    }
    var arena := [Cell(payload.Arr?, [])];
    var pending: seq<Work> := [(payload, 0)];
    while pending != []
      invariant Progress(arena, pending, payload)
      decreases Total(pending)
    {
      var (source, target) := pending[|pending| - 1];
      var rest := pending[..|pending| - 1];
      ghost var before := arena;
      assert pending == rest + [(source, target)];
      assert Ready(arena, pending[|pending| - 1]);
      arena, pending := CopyMembers(arena, rest, source, target);
      RoundKeepsProgress(before, rest, source, target, payload, arena, pending);
    }
    NothingPending(arena, 0);
    output := Read(arena, 0);
  }

  // ---------------------------------------------------------------- what is removed and what stays

  datatype Step = Key(key: string) | Index(index: nat)

  function At(j: Json, path: seq<Step>): Option<Json>
    decreases |path|
  {
    if path == [] then Some(j)
    else
      var inner := Enter(j, path[0]);
      if inner.None? then None else At(inner.value, path[1..])
  }

  function Enter(j: Json, step: Step): Option<Json> {
    match j
    case Arr(items) => if step.Index? && step.index < |items| then Some(items[step.index]) else None
    case Obj(members) => if step.Key? then Lookup(members, step.key) else None
    case _ => None
  }

  predicate Secretive(path: seq<Step>) {
    exists i :: 0 <= i < |path| && path[i].Key? && Secret(path[i].key)
  }

  lemma {:induction false} LookupStripped(members: seq<(string, Json)>, key: string)
    ensures var was, now := Lookup(members, key), Lookup(StripMembers(members), key);
            now == if Secret(key) || was.None? then None else Some(Strip(was.value))
  {
    if members != [] {
      LookupStripped(members[1..], key);
      var rest := StripMembers(members[1..]);
      var head := if Secret(members[0].0) then [] else [StripValue(members[0])];
      if head == [] {
        assert StripMembers(members) == rest;
      } else {
        assert (head + rest)[1..] == rest;
      }
    }
  }

  lemma EnterStripped(j: Json, step: Step)
    ensures var was, now := Enter(j, step), Enter(Strip(j), step);
            now == if (step.Key? && Secret(step.key)) || was.None? then None else Some(Strip(was.value))
  {
    match j
    case Arr(items) => StripItemsAre(items);
    case Obj(members) => if step.Key? { LookupStripped(members, step.key); }
    case _ =>
  }

  /** Exactly the values below a secret key are gone; at every other path the stripped payload holds
      the stripped value, or nothing where the payload held nothing. */
  lemma {:induction false} StrippedAt(j: Json, path: seq<Step>)
    ensures At(Strip(j), path) == if Secretive(path) || At(j, path).None? then None else Some(Strip(At(j, path).value))
    decreases |path|
  {
    if path != [] {
      EnterStripped(j, path[0]);
      SecretiveCons(path);
      var inner := Enter(j, path[0]);
      if inner.Some? {
        StrippedAt(inner.value, path[1..]);
      }
    }
  }

  lemma SecretiveCons(path: seq<Step>)
    requires path != []
    ensures Secretive(path) <==> (path[0].Key? && Secret(path[0].key)) || Secretive(path[1..])
  {
    var rest := path[1..];
    if Secretive(rest) {
      var i :| 0 <= i < |rest| && rest[i].Key? && Secret(rest[i].key);
      assert path[i + 1] == rest[i];
    }
    if Secretive(path) && !(path[0].Key? && Secret(path[0].key)) {
      var i :| 0 <= i < |path| && path[i].Key? && Secret(path[i].key);
      assert rest[i - 1] == path[i];
    }
  }

  /** Nothing is left to strip. */
  lemma {:induction false} StripIdempotent(j: Json)
    ensures Strip(Strip(j)) == Strip(j)
    decreases j
  {
    match j
    case Arr(items) => StripItemsIdempotent(items);
    case Obj(members) => StripMembersIdempotent(members);
    case _ =>
  }

  lemma {:induction false} StripItemsIdempotent(items: seq<Json>)
    ensures StripItems(StripItems(items)) == StripItems(items)
    decreases items
  {
    if items != [] {
      StripIdempotent(items[0]);
      StripItemsIdempotent(items[1..]);
      assert StripItems(items)[1..] == StripItems(items[1..]);
    }
  }

  lemma {:induction false} StripMembersIdempotent(members: seq<(string, Json)>)
    ensures StripMembers(StripMembers(members)) == StripMembers(members)
    decreases members
  {
    if members != [] {
      StripValueIdempotent(members[0]);
      StripMembersIdempotent(members[1..]);
      var rest, all := StripMembers(members[1..]), StripMembers(members);
      if Secret(members[0].0) {
        assert all == rest;
      } else {
        assert all[1..] == rest;
      }
    }
  }

  lemma {:induction false} StripValueIdempotent(member: (string, Json))
    ensures StripValue(StripValue(member)) == StripValue(member)
    decreases member
  {
    StripIdempotent(member.1);
  }

  // ---------------------------------------------------------------- spellings of the secret names

  /** The same letter in either case, or the same digit. */
  predicate SameLetter(c: char, letter: char) {
    c == letter || ('A' <= c <= 'Z' && c as int + 32 == letter as int)
  }

  predicate LetterOrDigit(c: char) {
    'a' <= c <= 'z' || 'A' <= c <= 'Z' || '0' <= c <= '9'
  }

  /** `key` is `name` in any letter case with any other characters put in anywhere. */
  predicate Spells(key: string, name: string) {
    if key == [] then name == []
    else if LetterOrDigit(key[0]) then name != [] && SameLetter(key[0], name[0]) && Spells(key[1..], name[1..])
    else Spells(key[1..], name)
  }

  /** A spelling of one of the names of a session secret. */
  predicate Hidden(key: string) {
    || Spells(key, "token") || Spells(key, "accesstoken") || Spells(key, "refreshtoken")
    || Spells(key, "sessiontoken") || Spells(key, "idtoken") || Spells(key, "jwt")
  }

  lemma {:induction false} SpellsIff(key: string, name: string)
    requires forall i :: 0 <= i < |name| ==> 'a' <= name[i] <= 'z'
    ensures Spells(key, name) <==> Lower(KeepAlnum(key)) == name
  {
    if key != [] {
      var rest := KeepAlnum(key[1..]);
      if LetterOrDigit(key[0]) {
        assert KeepAlnum(key) == [key[0]] + rest;
        assert Lower(KeepAlnum(key)) == [LowerChar(key[0])] + Lower(rest);
        if name != [] {
          SpellsIff(key[1..], name[1..]);
          assert name == [name[0]] + name[1..];
          assert Lower(KeepAlnum(key)) == name <==> LowerChar(key[0]) == name[0] && Lower(rest) == name[1..] by {
            assert Lower(KeepAlnum(key))[1..] == Lower(rest);
          }
        }
      } else {
        assert KeepAlnum(key) == rest;
        SpellsIff(key[1..], name);
      }
    }
  }

  lemma HiddenIff(key: string)
    ensures Hidden(key) <==> Secret(key)
  {
    SpellsIff(key, "token");
    SpellsIff(key, "accesstoken");
    SpellsIff(key, "refreshtoken");
    SpellsIff(key, "sessiontoken");
    SpellsIff(key, "idtoken");
    SpellsIff(key, "jwt");
  }

  predicate ThroughHidden(path: seq<Step>) {
    exists i :: 0 <= i < |path| && path[i].Key? && Hidden(path[i].key)
  }

  /** Nothing in both places, or the same plain value, arrays of one length, or two objects. */
  predicate SameThere(a: Option<Json>, b: Option<Json>) {
    match a
    case None => b.None?
    case Some(Arr(items)) => b.Some? && b.value.Arr? && |b.value.items| == |items|
    case Some(Obj(_)) => b.Some? && b.value.Obj?
    case _ => b == a
  }

  /** No path of the stripped payload goes through a spelling of a secret name; along every other path
      the value is there, stripped itself. */
  lemma HiddenNeverReached(payload: Json, path: seq<Step>)
    ensures ThroughHidden(path) ==> At(Strip(payload), path) == None
    ensures !ThroughHidden(path) ==>
      At(Strip(payload), path) == if At(payload, path).None? then None else Some(Strip(At(payload, path).value))
    ensures !ThroughHidden(path) ==> SameThere(At(payload, path), At(Strip(payload), path))
  {
    forall i | 0 <= i < |path| && path[i].Key? ensures Hidden(path[i].key) <==> Secret(path[i].key) {
      HiddenIff(path[i].key);
    }
    assert ThroughHidden(path) <==> Secretive(path);
    StrippedAt(payload, path);
  }
}
