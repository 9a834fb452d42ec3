/** The dictionary as a linked list of headers, and what finishing, cancelling and forgetting a definition
    make of it. */
module Dictionary {
  import opened Characters
  import opened Words

  const E_OK := 0
  const E_INVFORGET := -15
  const E_NESTEDCOMPILE := -29
  const E_STKOVERFLOW := -3
  const E_CSMISMATCH := -22

  /** Bytes in a cell. */
  const CELL: int := BITS / 8

  datatype Header =
    Header(at: int, name: string, builtin: bool, compiling: bool, immediate: bool, compOnly: bool, xt: int)

  /** struct e4__dict_header * : NULL or a header and the one it links to. */
  datatype Dict = Nil | Entry(header: Header, link: Dict)

  predicate SameName(a: string, b: string) {
    |a| == |b| && forall i :: 0 <= i < |a| ==> Lower(a[i]) == Lower(b[i])
  }

  /** The most recent entry of that name, with all that was defined before it; Nil if there is none. */
  function Find(dict: Dict, name: string): Dict {
    match dict
    case Nil => Nil
    case Entry(header, link) => if SameName(header.name, name) then dict else Find(link, name)
  }

  /** The headers of a dictionary, the newest first. */
  function Listed(dict: Dict): seq<Header> {
    if dict.Nil? then [] else [dict.header] + Listed(dict.link)
  }

  /** The dictionary without its newest n entries. */
  function Older(dict: Dict, n: nat): Dict {
    if n == 0 || dict.Nil? then dict else Older(dict.link, n - 1)
  }

  lemma SameNameMatches(a: string, b: string)
    ensures SameName(a, b) <==> Matches(a, b)
  {
    forall c: char, d: char {
      LowerJoinsCases(c, d);
    }
    hide Lower, SameLetter;
  }

  /** What a lookup finds is the newest header of that name, with what was defined before it. */
  lemma {:induction false} FoundIsNewest(dict: Dict, name: string) returns (i: nat)
    requires Find(dict, name).Entry?
    ensures i < |Listed(dict)| && Find(dict, name) == Older(dict, i) && Find(dict, name).header == Listed(dict)[i]
    ensures Matches(Listed(dict)[i].name, name)
    ensures forall j :: 0 <= j < i ==> !Matches(Listed(dict)[j].name, name)
    decreases dict
  {
    hide SameName, Matches;
    SameNameMatches(dict.header.name, name);
    if Matches(dict.header.name, name) {
      i := 0;
    } else {
      i := FoundIsNewest(dict.link, name);
      var rest := Listed(dict.link);
      assert forall j :: 0 <= j < |rest| ==> Listed(dict)[j + 1] == rest[j];
      i := i + 1;
    }
  }

  /** And it finds something if there is a header of that name at all. */
  lemma {:induction false} ListedIsFound(dict: Dict, name: string, i: nat)
    requires i < |Listed(dict)| && Matches(Listed(dict)[i].name, name)
    ensures Find(dict, name).Entry?
    decreases dict
  {
    hide SameName, Matches;
    SameNameMatches(dict.header.name, name);
    if !Matches(dict.header.name, name) {
      ListedIsFound(dict.link, name, i - 1);
    }
  }

  /** e4__mem_dict_lookup */
  method Lookup(dict: Dict, name: string) returns (found: Dict)
    ensures found == Find(dict, name)
  {
    found := dict;
    while found.Entry?
      invariant Find(dict, name) == Find(found, name)
      decreases found
    {
      if SameName(found.header.name, name) {
        return;
      }
      found := found.link;
    }
  }

  /** What e4__dict_lookup searches: not the word that is being compiled. */
  function Visible(dict: Dict): Dict {
    if dict.Entry? && dict.header.compiling then dict.link else dict
  }

  // ----- compilation state -----

  /** compile.state and compile.sus_state; Anonymous is what resuming from nothing gives. */
  datatype Mode = Idle | Colon | Noname | DoesMode | Anonymous

  predicate Defining(m: Mode) {
    m.Colon? || m.Noname? || m.DoesMode?
  }

  /** The code and user fields that finishing a definition gives to a token: e4__execute_threaded, or
      e4__execute_doesthunk and the start of the DOES> part. */
  datatype Code = RunsThread | RunsDoes(body: int)

  datatype State =
    State(dict: Dict, here: int, mode: Mode, suspended: Mode, here0: int, xt: int, s0: int, codes: map<int, Code>)

  /** What can come between the start of a definition and its end: cells, literals and strings written at
      HERE, [ and ], and headers, such as those of CREATE or of a colon that is refused for nesting.  A
      colon that is not refused, after [, begins a definition of its own. */
  datatype Event = Write(bytes: nat) | Suspend | Resume | Make(header: Header, size: nat)

  class Task {
    var dict: Dict
    var here: int
    var mode: Mode
    var suspended: Mode
    var here0: int
    var xt: int
    var s0: int
    var codes: map<int, Code>

    constructor (s: State)
      ensures Now() == s
    {
      dict, here, mode, suspended, here0 := s.dict, s.here, s.mode, s.suspended, s.here0;
      xt, s0, codes := s.xt, s.s0, s.codes;
    }

    function Now(): State
      reads this
    {
      State(dict, here, mode, suspended, here0, xt, s0, codes)
    }

    /** e4__dict_entry, for a header and name of so many bytes. */
    method DictEntry(header: Header, size: nat)
      modifies this`dict, this`here
      ensures Now() == Apply(old(Now()), Make(header, size))
    {
      dict := Entry(header.(at := here, builtin := false), dict);
      here := here + size;
    }

    /** e4__dict_forget */
    method DictForget(name: string) returns (res: int)
      modifies this`dict, this`here
      ensures var found := Find(old(dict), name);
        if found.Nil? || found.header.builtin then res == E_INVFORGET && Now() == old(Now())
        else res == E_OK && Now() == old(Now()).(dict := found.link, here := found.header.at)
    {
      var found := Lookup(dict, name);
      if found.Nil? || found.header.builtin {
        return E_INVFORGET;
      }
      dict, here := found.link, found.header.at;
      res := E_OK;
    }

    /** e4__dict_lookup */
    method DictLookup(name: string) returns (found: Dict)
      requires dict.Entry?
      ensures found == Find(Visible(dict), name)
    {
      found := Lookup(if dict.header.compiling then dict.link else dict, name);
    }

    /** e4__compile_start, with the data stack at sp */
    method CompileStart(token: int, m: Mode, sp: int) returns (res: int)
      requires Defining(m)
      modifies this`mode, this`here0, this`xt, this`s0
      ensures if old(mode) != Idle then res == E_NESTEDCOMPILE && Now() == old(Now())
              else res == E_OK && Now() == old(Now()).(mode := m, here0 := old(here), xt := token, s0 := sp)
    {
      if mode != Idle {
        return E_NESTEDCOMPILE;
      }
      mode, here0, xt, s0 := m, here, token, sp;
      res := E_OK;
    }

    /** e4__compile_suspend */
    method CompileSuspend()
      modifies this`mode, this`suspended
      ensures Now() == Apply(old(Now()), Suspend)
    {
      suspended := mode;
      mode := Idle;
    }

    /** e4__compile_resume */
    method CompileResume() returns (res: int)
      modifies this`mode, this`suspended
      ensures Now() == Apply(old(Now()), Resume)
      ensures res == if old(mode) == Idle then E_OK else E_NESTEDCOMPILE
    {
      if mode != Idle {
        return E_NESTEDCOMPILE;
      }
      mode := if suspended != Idle then suspended else Anonymous;
      suspended := Idle;
      res := E_OK;
    }

    /** e4__compile_cancel */
    method CompileCancel()
      requires dict.Entry?
      modifies this
      ensures Now() == Cancelled(old(Now()))
    {
      var res := CompileResume();
      if mode == Anonymous {
        mode := Idle;
        return;
      }
      if mode == Colon {
        NewestIsFound(dict);
        res := DictForget(dict.header.name);
      } else if mode == Noname {
        here := xt;
      } else {
        here := here0;
      }
      mode := Idle;
    }

    /** e4__compile_finish, with the data stack at sp and perhaps room on it for the token of :NONAME */
    method CompileFinish(sp: int, room: bool) returns (res: int, pushed: bool)
      requires dict.Entry?
      modifies this
      ensures Now() == Finished(old(Now()), sp)
      ensures res ==
        var m := Apply(old(Now()), Resume).mode;
        if m == Anonymous then E_OK
        else if old(s0) != sp then E_CSMISMATCH
        else if m == Noname && !room then E_STKOVERFLOW
        else E_OK
      ensures pushed <==> Apply(old(Now()), Resume).mode == Noname && old(s0) == sp && room
    {
      res := CompileResume();
      pushed := false;
      if mode == Anonymous {
        mode := Idle;
        return E_OK, false;
      }
      if s0 != sp {
        CompileCancel();
        return E_CSMISMATCH, false;
      }
      res := E_OK;
      if mode == DoesMode {
        codes := codes[xt := RunsDoes(here0)];
      } else {
        if mode == Noname {
          if !room {
            res := E_STKOVERFLOW;
          } else {
            pushed := true;
          }
        } else if mode == Colon {
          dict := Revealed(dict);
        }
        codes := codes[xt := RunsThread];
      }
      here := here + 2 * CELL;
      mode := Idle;
    }
  }

  lemma NewestIsFound(dict: Dict)
    requires dict.Entry?
    ensures Find(dict, dict.header.name) == dict
  {
  }

  // ----- the same, as functions -----

  function NewHeader(at: int, name: string, token: int): Header {
    Header(at, name, false, true, false, false, token)
  }

  function Entered(s: State, name: string, size: nat, token: int): State {
    Apply(s, Make(NewHeader(s.here, name, token), size))
  }

  /** The newest word is no longer being compiled. */
  function Revealed(dict: Dict): Dict
    requires dict.Entry?
  {
    dict.(header := dict.header.(compiling := false))
  }

  function Apply(s: State, e: Event): State {
    match e
    case Write(n) => s.(here := s.here + n)
    case Make(header, size) =>
      s.(dict := Entry(header.(at := s.here, builtin := false), s.dict), here := s.here + size)
    case Suspend => s.(suspended := s.mode, mode := Idle)
    case Resume =>
      if s.mode != Idle then s
      else s.(mode := if s.suspended != Idle then s.suspended else Anonymous, suspended := Idle)
  }

  function Cancelled(s: State): State
    requires s.dict.Entry?
  {
    var t := Apply(s, Resume);
    var u := t.(mode := Idle);
    match t.mode
    case Colon => if s.dict.header.builtin then u else u.(dict := s.dict.link, here := s.dict.header.at)
    case Noname => u.(here := t.xt)
    case DoesMode => u.(here := t.here0)
    case _ => u
  }

  function Finished(s: State, sp: int): State
    requires s.dict.Entry?
  {
    var t := Apply(s, Resume);
    if t.mode == Anonymous then t.(mode := Idle)
    else if t.s0 != sp then Cancelled(t)
    else
      t.(mode := Idle, here := t.here + 2 * CELL, dict := if t.mode == Colon then Revealed(t.dict) else t.dict,
         codes := t.codes[t.xt := if t.mode == DoesMode then RunsDoes(t.here0) else RunsThread])
  }

  function Run(s: State, events: seq<Event>): (t: State)
    decreases |events|
  {
    if events == [] then s else Run(Apply(s, events[0]), events[1..])
  }

  /** The start of a definition, with the data stack at sp: of a word with a header of so many bytes, of a
      nameless one whose token takes so many, or of what DOES> attaches to the latest word. */
  function Started(s: State, m: Mode, name: string, size: nat, token: int, sp: int): State
    requires Defining(m)
  {
    var t := match m
      case Colon => Entered(s, name, size, token)
      case Noname => s.(here := s.here + size)
      case _ => s;
    t.(mode := m, here0 := t.here, xt := if m.Noname? then s.here else token, s0 := sp)
  }

  /** : and its name.  The header is made before nesting is refused. */
  method StartColon(task: Task, name: string, size: nat, token: int, sp: int) returns (res: int)
    modifies task
    ensures if old(task.mode) == Idle then
        res == E_OK && task.Now() == Started(old(task.Now()), Colon, name, size, token, sp)
      else res == E_NESTEDCOMPILE && task.Now() == Entered(old(task.Now()), name, size, token)
  {
    task.DictEntry(NewHeader(task.here, name, token), size);
    res := task.CompileStart(token, Colon, sp);
  }

  // ----- rollback -----

  /** Is the compiler never suspended while it is not compiling anyway? */
  predicate Bracketed(m: Mode, suspended: Mode, events: seq<Event>)
    decreases |events|
  {
    events == [] ||
    match events[0]
    case Write(_) => Bracketed(m, suspended, events[1..])
    case Make(_, _) => Bracketed(m, suspended, events[1..])
    case Suspend => m != Idle && Bracketed(Idle, m, events[1..])
    case Resume => if m != Idle then Bracketed(m, suspended, events[1..]) else Bracketed(suspended, Idle, events[1..])
  }

  predicate NeverSuspends(events: seq<Event>) {
    Suspend !in events
  }

  predicate NothingWritten(events: seq<Event>) {
    forall i :: 0 <= i < |events| && events[i].Write? ==> events[i].bytes == 0
  }

  /** How many headers were made. */
  function Headers(events: seq<Event>): nat
    decreases |events|
  {
    if events == [] then 0 else (if events[0].Make? then 1 else 0) + Headers(events[1..])
  }

  /** What the start of the definition recorded stays, and the dictionary only grows. */
  lemma {:induction false} RunKeeps(s: State, events: seq<Event>)
    ensures var t := Run(s, events);
      && t.here0 == s.here0 && t.xt == s.xt && t.s0 == s.s0 && t.codes == s.codes && s.here <= t.here
      && Entries(t.dict) == Entries(s.dict) + Headers(events)
    decreases |events|
  {
    if events == [] {
    } else {
      RunKeeps(Apply(s, events[0]), events[1..]);
    }
  }

  /** Without headers only mode, suspension and HERE change on the way. */
  lemma {:induction false} NoHeaderKeeps(s: State, events: seq<Event>)
    requires Headers(events) == 0
    ensures Run(s, events).dict == s.dict
    ensures Run(s, events).here == s.here <==> NothingWritten(events)
    decreases |events|
  {
    if events == [] {
    } else {
      NoHeaderKeeps(Apply(s, events[0]), events[1..]);
      RunKeeps(Apply(s, events[0]), events[1..]);
      assert events == [events[0]] + events[1..];
    }
  }

  /** With one header, that is the latest. */
  lemma {:induction false} OneHeaderKeeps(s: State, events: seq<Event>)
    requires Headers(events) == 1
    ensures var t := Run(s, events); t.dict.Entry? && t.dict.link == s.dict
    decreases |events|
  {
    if events[0].Make? {
      NoHeaderKeeps(Apply(s, events[0]), events[1..]);
    } else {
      OneHeaderKeeps(Apply(s, events[0]), events[1..]);
    }
  }

  /** The definition in progress is known, as the mode or as what is suspended. */
  predicate Tracked(s: State, m: Mode) {
    (s.mode == m && s.suspended == Idle) || (s.mode == Idle && s.suspended == m)
  }

  /** Nothing is left that says which definition is in progress. */
  predicate Lost(s: State) {
    !Defining(s.mode) && !Defining(s.suspended) && (s.mode == Idle || s.suspended == Idle)
  }

  lemma {:induction false} LostStaysLost(s: State, events: seq<Event>)
    requires Lost(s)
    ensures Lost(Run(s, events))
    decreases |events|
  {
    if events == [] {
    } else {
      LostStaysLost(Apply(s, events[0]), events[1..]);
    }
  }

  lemma {:induction false} TrackedRun(s: State, m: Mode, events: seq<Event>)
    requires Defining(m) && Tracked(s, m)
    ensures if Bracketed(s.mode, s.suspended, events) then Tracked(Run(s, events), m) else Lost(Run(s, events))
    decreases |events|
  {
    if events == [] {
    } else {
      var t := Apply(s, events[0]);
      if events[0] == Suspend && s.mode == Idle {
        LostStaysLost(t, events[1..]);
      } else {
        TrackedRun(t, m, events[1..]);
      }
    }
  }

  /** As long as nothing is suspended, what was suspended before stays. */
  lemma {:induction false} FirstSuspend(s: State, m: Mode, events: seq<Event>)
    requires Defining(m) && s.mode == m
    ensures var t := Run(s, events);
      if NeverSuspends(events) then t.mode == m && t.suspended == s.suspended
      else if Bracketed(m, Idle, events) then Tracked(t, m)
      else Lost(t)
    decreases |events|
  {
    if events == [] {
    } else {
      var t := Apply(s, events[0]);
      if events[0] == Suspend {
        TrackedRun(t, m, events[1..]);
      } else {
        assert Suspend in events <==> Suspend in events[1..] by {
          assert events == [events[0]] + events[1..];
        }
        FirstSuspend(t, m, events[1..]);
      }
    }
  }

  function Entries(dict: Dict): nat {
    if dict.Nil? then 0 else 1 + Entries(dict.link)
  }

  lemma LinkDiffers(h: Header, d: Dict)
    ensures Entry(h, d) != d
  {
    assert Entries(Entry(h, d)) == 1 + Entries(d);
  }

  /** Cancelling puts dictionary, HERE and both state fields back to what they were before the definition,
      and leaves every token its code (that of a DOES> word too), if and only if no header was made in the
      definition, and it was never suspended, or nothing else was suspended when it began and it was never
      suspended twice in a row (which loses track of it; a DOES> part that wrote nothing does not mind). */
  lemma CancelRestores(s: State, m: Mode, name: string, size: nat, token: int, sp: int, events: seq<Event>)
    requires s.mode == Idle && Defining(m) && 0 < size && (m.DoesMode? ==> s.dict.Entry?)
    requires Run(Started(s, m, name, size, token, sp), events).dict.Entry?
    ensures Restored(s, Cancelled(Run(Started(s, m, name, size, token, sp), events))) <==>
      Headers(events) == 0 &&
      (NeverSuspends(events) ||
       (s.suspended == Idle && (Bracketed(m, Idle, events) || (m.DoesMode? && NothingWritten(events)))))
  {
    var b := Started(s, m, name, size, token, sp);
    RunKeeps(b, events);
    FirstSuspend(b, m, events);
    if Headers(events) == 0 {
      NoHeaderKeeps(b, events);
      if m.Colon? {
        LinkDiffers(b.dict.header, s.dict);
      }
    } else {
      DropsOne(Run(b, events), m);
    }
  }

  predicate Restored(s: State, t: State) {
    t.dict == s.dict && t.here == s.here && t.mode == s.mode && t.suspended == s.suspended && t.codes == s.codes
  }

  /** Cancelling drops one header at most, and none that is not of a colon definition. */
  lemma DropsOne(s: State, m: Mode)
    requires s.dict.Entry? && Defining(m)
    requires s.mode == m || Tracked(s, m) || Lost(s)
    ensures Entries(Cancelled(s).dict) >= Entries(s.dict) - if m.Colon? then 1 else 0
  {
  }

  /** While a word is being compiled, every lookup answers as it did before, if and only if no header is
      made: the next header uncovers the unfinished word. */
  lemma DefinitionIsHidden(s: State, name: string, size: nat, token: int, sp: int, events: seq<Event>)
    ensures var t := Run(Started(s, Colon, name, size, token, sp), events);
      (forall looked :: Find(Visible(t.dict), looked) == Find(s.dict, looked)) <==> Headers(events) == 0
  {
    var b := Started(s, Colon, name, size, token, sp);
    var t := Run(b, events);
    if Headers(events) == 0 {
      NoHeaderKeeps(b, events);
    } else {
      StaysAbove(b, events, name, Entries(b.dict));
      RunKeeps(b, events);
      FindsPart(s.dict, name);
      assert Find(Visible(t.dict), name) != Find(s.dict, name);
    }
  }

  /** The answer is a part of the dictionary. */
  lemma {:induction false} FindsPart(dict: Dict, looked: string)
    ensures Entries(Find(dict, looked)) <= Entries(dict)
    decreases dict
  {
    if dict.Nil? || SameName(dict.header.name, looked) {
    } else {
      FindsPart(dict.link, looked);
    }
  }

  /** What was found is found again, or something newer; below the latest header too if there are new ones. */
  lemma {:induction false} StaysAbove(s: State, events: seq<Event>, looked: string, n: nat)
    requires s.dict.Entry? && Entries(Find(s.dict, looked)) >= n
    ensures var t := Run(s, events);
      && t.dict.Entry?
      && Entries(Find(t.dict, looked)) >= n
      && (Headers(events) > 0 ==> Entries(Find(t.dict.link, looked)) >= n)
    decreases |events|
  {
    if events == [] {
    } else {
      var t := Apply(s, events[0]);
      FindsPart(s.dict, looked);
      StaysAbove(t, events[1..], looked, n);
      if events[0].Make? && Headers(events[1..]) == 0 {
        NoHeaderKeeps(t, events[1..]);
      }
    }
  }

  /** The semicolon makes the word known, in front of all that was known before, and its token a thread, if
      and only if the stack is where it was, no header was made and the compiler was never suspended twice
      in a row. */
  lemma FinishReveals(s: State, name: string, size: nat, token: int, sp: int, events: seq<Event>, sp': int)
    requires s.mode == Idle
    requires Run(Started(s, Colon, name, size, token, sp), events).dict.Entry?
    ensures var t := Finished(Run(Started(s, Colon, name, size, token, sp), events), sp');
      (t.dict == Entry(Header(s.here, name, false, false, false, false, token), s.dict) &&
       t.codes == s.codes[token := RunsThread]) <==>
      sp == sp' && Headers(events) == 0 && Bracketed(Colon, Idle, events)
  {
    var b := Started(s, Colon, name, size, token, sp);
    RunKeeps(b, events);
    FirstSuspend(b, Colon, events);
    if NeverSuspends(events) {
      NeverSuspended(Colon, Idle, events);
    }
    var e := Run(b, events);
    if Headers(events) == 0 {
      NoHeaderKeeps(b, events);
    } else {
      DropsOne(e, Colon);
      assert Entries(Revealed(e.dict)) == Entries(e.dict);
      if Headers(events) == 1 {
        OneHeaderKeeps(b, events);
      }
    }
    LinkDiffers(NewHeader(s.here, name, token).(compiling := false), s.dict);
  }

  /** What the semicolon does to a definition of any kind that is known to be in progress: two more cells, of
      BITS / 8 bytes each, behind what was written; a visible word, or the code of a nameless token or of
      the latest word's DOES> part. */
  lemma FinishWrites(s: State, m: Mode, name: string, size: nat, token: int, sp: int, events: seq<Event>)
    requires s.mode == Idle && Defining(m) && Headers(events) == 0 && Bracketed(m, Idle, events)
    requires Run(Started(s, m, name, size, token, sp), events).dict.Entry?
    ensures var e := Run(Started(s, m, name, size, token, sp), events);
      var t := Finished(e, sp);
      && t.mode == Idle && t.here == e.here + 2 * (BITS / 8)
      && (m.Colon? ==> t.dict == Entry(Header(s.here, name, false, false, false, false, token), s.dict) &&
                       t.codes == s.codes[token := RunsThread])
      && (m.Noname? ==> t.dict == s.dict && t.codes == s.codes[s.here := RunsThread])
      && (m.DoesMode? ==> t.dict == s.dict && t.codes == s.codes[token := RunsDoes(s.here)])
  {
    var b := Started(s, m, name, size, token, sp);
    RunKeeps(b, events);
    NoHeaderKeeps(b, events);
    FirstSuspend(b, m, events);
  }

  lemma {:induction false} NeverSuspended(m: Mode, suspended: Mode, events: seq<Event>)
    requires m != Idle && NeverSuspends(events)
    ensures Bracketed(m, suspended, events)
    decreases |events|
  {
    if events == [] {
    } else {
      assert events == [events[0]] + events[1..];
      NeverSuspended(m, suspended, events[1..]);
    }
  }

  /** A second : at once leaves a header that cancelling takes for the definition in progress: the one it is
      really about stays in the dictionary. */
  lemma NestedColonSpoilsCancel(s: State, name: string, size: nat, token: int, sp: int, header: Header, size2: nat)
    requires s.mode == Idle && 0 < size
    ensures var b := Started(s, Colon, name, size, token, sp);
      var t := Cancelled(Apply(b, Make(header, size2)));
      t.mode == Idle && t.dict == b.dict && t.here == b.here && !Restored(s, t)
  {
    LinkDiffers(NewHeader(s.here, name, token), s.dict);
  }

  /** [ [ : the definition is forgotten as one in progress, and stays in the dictionary. */
  lemma SuspendedTwiceIsLost(s: State, name: string, size: nat, token: int, sp: int)
    requires s.mode == Idle && 0 < size
    ensures var b := Started(s, Colon, name, size, token, sp);
      var t := Cancelled(Run(b, [Suspend, Suspend]));
      t.mode == Idle && t.dict == b.dict && t.here == b.here && !Restored(s, t)
  {
    var b := Started(s, Colon, name, size, token, sp);
    assert [Suspend, Suspend][1..] == [Suspend] && [Suspend][1..] == [];
    assert Run(b, [Suspend, Suspend]) == Run(Apply(b, Suspend), [Suspend]) == Apply(Apply(b, Suspend), Suspend);
    LinkDiffers(NewHeader(s.here, name, token), s.dict);
  }

  // ----- forgetting -----

  /** What can happen to the dictionary after a word was made: another word, or flags of the newest. */
  datatype Growth = Enter(name: string, size: nat, token: int) | Reveal | MakeImmediate

  function Grow(s: State, g: Growth): State {
    match g
    case Enter(name, size, token) => Entered(s, name, size, token)
    case Reveal => if s.dict.Entry? then s.(dict := Revealed(s.dict)) else s
    case MakeImmediate =>
      if s.dict.Entry? then s.(dict := s.dict.(header := s.dict.header.(immediate := true))) else s
  }

  function Grown(s: State, gs: seq<Growth>): State
    decreases |gs|
  {
    if gs == [] then s else Grown(Grow(s, gs[0]), gs[1..])
  }

  function Forgotten(s: State, name: string): State {
    var found := Find(s.dict, name);
    if found.Nil? || found.header.builtin then s else s.(dict := found.link, here := found.header.at)
  }

  /** Forgetting a word, whatever other words were defined after it, brings back everything from before its
      definition: the dictionary, and with it what every lookup finds, and HERE. */
  lemma ForgetUndoes(s: State, name: string, size: nat, token: int, later: seq<Growth>)
    requires forall i :: 0 <= i < |later| && later[i].Enter? ==> !SameName(later[i].name, name)
    ensures Forgotten(Grown(Entered(s, name, size, token), later), name) == s
  {
    StaysUnder(s, Entered(s, name, size, token), name, later);
  }

  /** The name leads to a word that was made in state s. */
  predicate MadeIn(t: State, s: State, name: string) {
    var found := Find(t.dict, name);
    && t == s.(dict := t.dict, here := t.here)
    && found.Entry? && !found.header.builtin && found.header.at == s.here && found.link == s.dict
  }

  lemma {:induction false} StaysUnder(s: State, t: State, name: string, later: seq<Growth>)
    requires MadeIn(t, s, name)
    requires forall i :: 0 <= i < |later| && later[i].Enter? ==> !SameName(later[i].name, name)
    ensures MadeIn(Grown(t, later), s, name)
    decreases |later|
  {
    if later == [] {
    } else {
      StaysUnder(s, Grow(t, later[0]), name, later[1..]);
    }
  }
}
