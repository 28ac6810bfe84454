/** The chain of full and incremental save files. */
module SaveChains {

  import opened Basics

  /** A form of the table: its content, whether it is flagged as deleted, whether it was ever written to or
      read from a save, and whether it has changed since. */
  datatype Form = Form(content: nat, deleted: bool, saved: bool, changed: bool)

  datatype Record = Record(content: nat, deleted: bool)

  datatype SaveFile = SaveFile(prior: seq<nat>, records: map<FormID, Record>)

  datatype Settings = Settings(incrementalSaveFiles: bool, createFullSaveEvery: int)

  datatype State = State(savenumber: nat, loadedsavenumber: nat, priorsaves: seq<nat>,
                         hashmap: map<FormID, Form>, disk: map<nat, SaveFile>)

  datatype Event =
    | Create(id: FormID, content: nat)
    | Change(id: FormID, content: nat)
    | Delete(id: FormID)
    | Save(settings: Settings, opens: bool)
    | Load
    | LoadNumber(number: nat)
    | Clear
    | Restart

  /** A new process: nothing in the table, the files of earlier processes on disk. */
  function Started(disk: map<nat, SaveFile>): State {
    State(1, 0, [], map[], disk)
  }

  // What each step does

  function RecordOf(f: Form): Record {
    Record(f.content, f.deleted)
  }

  predicate Incremental(settings: Settings, savenumber: nat) {
    settings.incrementalSaveFiles && (settings.createFullSaveEvery == 0
                                      || savenumber % settings.createFullSaveEvery != 0)
  }

  /** Taking the name of a new save moves the number loaded or saved last to the prior saves. */
  function Named(s: State): State {
    s.(priorsaves := s.priorsaves + if s.loadedsavenumber > 0 then [s.loadedsavenumber] else [],
       loadedsavenumber := s.savenumber,
       savenumber := s.savenumber + 1)
  }

  predicate Selected(incremental: bool, f: Form) {
    !incremental || f.changed
  }

  function Written(table: map<FormID, Form>, incremental: bool): map<FormID, Record> {
    map id | id in table && Selected(incremental, table[id]) :: RecordOf(table[id])
  }

  function Cleaned(table: map<FormID, Form>, incremental: bool): map<FormID, Form> {
    map id | id in table :: Clean(incremental, table[id])
  }

  function Clean(incremental: bool, f: Form): Form {
    if Selected(incremental, f) then f.(saved := true, changed := false) else f
  }

  function AfterSave(s: State, settings: Settings, opens: bool): State {
    var incremental := Incremental(settings, s.savenumber);
    var t := Named(s);
    if !opens then t
    else
      var priors := if incremental then t.priorsaves else [];
      t.(priorsaves := priors,
         hashmap := Cleaned(s.hashmap, incremental),
         disk := s.disk[s.savenumber := SaveFile(priors, Written(s.hashmap, incremental))])
  }

  /** Reading a file registers its records that are not deleted; a form already in the table stays. */
  function Registered(table: map<FormID, Form>, records: map<FormID, Record>): map<FormID, Form> {
    Loaded(records) + table
  }

  function Loaded(records: map<FormID, Record>): map<FormID, Form> {
    map id | id in records && !records[id].deleted :: Form(records[id].content, false, true, false)
  }

  function AllRegistered(table: map<FormID, Form>, disk: map<nat, SaveFile>, numbers: seq<nat>): map<FormID, Form>
    requires forall n :: n in numbers ==> n in disk
  {
    if numbers == [] then table
    else
      assert numbers[|numbers| - 1] in numbers;
      Registered(AllRegistered(table, disk, numbers[..|numbers| - 1]), disk[numbers[|numbers| - 1]].records)
  }

  lemma LastRegistered(table: map<FormID, Form>, disk: map<nat, SaveFile>, numbers: seq<nat>, last: nat)
    requires last in disk && forall n :: n in numbers ==> n in disk
    ensures AllRegistered(table, disk, numbers + [last]) == Registered(AllRegistered(table, disk, numbers),
        disk[last].records)
    ensures AllRegistered(table, disk, []) == table
  {
    assert (numbers + [last])[..|numbers|] == numbers;
  }

  function WithoutDeleted(table: map<FormID, Form>): map<FormID, Form> {
    map id | id in table && !table[id].deleted :: table[id]
  }

  ghost predicate PriorsPresent(disk: map<nat, SaveFile>, number: nat)
    requires number in disk
  {
    forall n :: n in disk[number].prior ==> n in disk
  }

  /** The header replaces the prior saves only if it names some; if one of them is missing nothing is read. */
  ghost function AfterRead(s: State, number: nat): State
    requires number in s.disk
  {
    var header := s.disk[number].prior;
    var table := if PriorsPresent(s.disk, number) then AllRegistered(s.hashmap, s.disk, header + [number])
      else s.hashmap;
    s.(priorsaves := if header != [] then header else s.priorsaves, hashmap := WithoutDeleted(table))
  }

  ghost function Any(numbers: set<nat>): (n: nat)
    requires numbers != {}
    ensures n in numbers
  {
    var n :| n in numbers;
    n
  }

  /** The highest number on disk, or 0. */
  ghost function Highest(numbers: set<nat>): nat {
    if numbers == {} then 0
    else
      var n := Any(numbers);
      var rest := Highest(numbers - {n});
      if n > rest then n else rest
  }

  ghost function AfterLoad(s: State, number: nat): State {
    if number !in s.disk || number == 0 then s
    else AfterRead(s.(savenumber := Highest(s.disk.Keys) + 1, loadedsavenumber := number), number)
  }

  function AfterDelete(s: State, id: FormID): State {
    if id !in s.hashmap then s
    else if s.hashmap[id].saved then s.(hashmap := s.hashmap[id := s.hashmap[id].(deleted := true, changed := true)])
    else s.(hashmap := s.hashmap - {id})
  }

  ghost function Step(s: State, e: Event): State {
    match e
    case Create(id, content) =>
      if id in s.hashmap then s else s.(hashmap := s.hashmap[id := Form(content, false, false, true)])
    case Change(id, content) =>
      if id in s.hashmap then s.(hashmap := s.hashmap[id := s.hashmap[id].(content := content, changed := true)]) else s
    case Delete(id) => AfterDelete(s, id)
    case Save(settings, opens) => AfterSave(s, settings, opens)
    case Load => AfterLoad(s, Highest(s.disk.Keys))
    case LoadNumber(number) => AfterLoad(s, number)
    case Clear => s.(hashmap := map[])
    case Restart => Started(s.disk)
  }

  ghost function Run(events: seq<Event>): State {
    if events == [] then Started(map[]) else Step(Run(events[..|events| - 1]), events[|events| - 1])
  }

  lemma {:induction false} HighestBounds(numbers: set<nat>)
    ensures forall n :: n in numbers ==> n <= Highest(numbers)
    ensures Highest(numbers) == 0 || Highest(numbers) in numbers
    decreases |numbers|
  {
    if numbers != {} {
      HighestBounds(numbers - {Any(numbers)});
    }
  }

  // Coverage

  /** The numbers that the next incremental save names in its header, followed by nothing else. */
  function Chain(s: State): seq<nat> {
    s.priorsaves + if s.loadedsavenumber > 0 then [s.loadedsavenumber] else []
  }

  ghost predicate Holds(disk: map<nat, SaveFile>, n: nat, id: FormID, r: Record) {
    n in disk && id in disk[n].records && disk[n].records[id] == r
  }

  /** Every form that is not changed is stored, as it is now, in a save of the chain. */
  ghost predicate Covered(s: State) {
    forall id :: id in s.hashmap && !s.hashmap[id].changed ==>
                   exists n :: n in Chain(s) && Holds(s.disk, n, id, RecordOf(s.hashmap[id]))
  }

  /** No save of the chain will be written over. */
  ghost predicate Safe(s: State) {
    && s.savenumber > 0
    && forall n :: n in Chain(s) && n in s.disk ==> n < s.savenumber
  }

  predicate IsLoad(e: Event) {
    e.Load? || e.LoadNumber?
  }

  /** The chain that a load of save `number` leaves behind. */
  function ChainAfterLoad(s: State, number: nat): seq<nat>
    requires number in s.disk
  {
    (if s.disk[number].prior != [] then s.disk[number].prior else s.priorsaves) + [number]
  }

  /** What a caller has to know before loading into a table with forms: those that are neither changed nor
      deleted are stored, as they are, in the chain that the load leaves behind. */
  ghost predicate KeepsItsForms(s: State, number: nat)
    requires number in s.disk
  {
    forall id :: id in s.hashmap && !s.hashmap[id].changed && !s.hashmap[id].deleted ==>
                   exists n :: n in ChainAfterLoad(s, number) && Holds(s.disk, n, id, RecordOf(s.hashmap[id]))
  }

  ghost predicate LoadKeepsItsForms(s: State, e: Event) {
    match e
    case Load => Highest(s.disk.Keys) in s.disk ==> KeepsItsForms(s, Highest(s.disk.Keys))
    case LoadNumber(number) => number in s.disk ==> KeepsItsForms(s, number)
    case _ => true
  }

  /** Every load of the run meets that condition; a load into an empty table always does. */
  ghost predicate LoadsKeepTheirForms(events: seq<Event>) {
    forall k :: 0 <= k < |events| ==> LoadKeepsItsForms(Run(events[..k]), events[k])
  }

  lemma {:induction false} AllRegisteredHolds(table: map<FormID, Form>, disk: map<nat, SaveFile>, numbers: seq<nat>,
                                              id: FormID)
    requires forall n :: n in numbers ==> n in disk
    ensures var t := AllRegistered(table, disk, numbers);
            && (id in table ==> id in t && t[id] == table[id])
            && (id !in table && id in t ==>
                  && !t[id].changed && !t[id].deleted && t[id].saved
                  && exists n :: n in numbers && Holds(disk, n, id, RecordOf(t[id])))
            && (id in t <==> id in table || exists n ::
                 && n in numbers && id in disk[n].records
                 && !disk[n].records[id].deleted)
  {
    if numbers != [] {
      var before, last := numbers[..|numbers| - 1], numbers[|numbers| - 1];
      AllRegisteredHolds(table, disk, before, id);
      assert last in numbers;
      assert forall n :: n in numbers <==> n in before || n == last;
      if id in disk[last].records {
        assert Holds(disk, last, id, disk[last].records[id]);
      }
    }
  }

  /** A load leaves every form covered exactly under that condition. */
  lemma LoadCoversIff(s: State, number: nat)
    requires number in s.disk && number > 0
    ensures Safe(AfterLoad(s, number)) && AfterLoad(s, number).disk == s.disk
    ensures Covered(AfterLoad(s, number)) <==> KeepsItsForms(s, number)
  {
    hide Highest;
    HighestBounds(s.disk.Keys);
    var t, header := AfterLoad(s, number), s.disk[number].prior;
    assert Chain(t) == ChainAfterLoad(s, number);
    forall id
      ensures id in s.hashmap && !s.hashmap[id].deleted ==> id in t.hashmap && t.hashmap[id] == s.hashmap[id]
      ensures id in t.hashmap && id !in s.hashmap ==>
                exists n :: n in Chain(t) && Holds(t.disk, n, id, RecordOf(t.hashmap[id]))
      ensures id in t.hashmap && id in s.hashmap ==> t.hashmap[id] == s.hashmap[id] && !s.hashmap[id].deleted
    {
      LoadedForm(s, number, id);
    }
  }

  /** A form of the table stays as it is unless it is deleted; a new one is stored in the chain. */
  lemma LoadedForm(s: State, number: nat, id: FormID)
    requires number in s.disk && number > 0
    ensures var t := AfterLoad(s, number);
            && (id in s.hashmap ==>
                 && (id in t.hashmap <==> !s.hashmap[id].deleted)
                 && (id in t.hashmap ==> t.hashmap[id] == s.hashmap[id]))
            && (id in t.hashmap && id !in s.hashmap ==>
                  exists n :: n in ChainAfterLoad(s, number) && Holds(s.disk, n, id, RecordOf(t.hashmap[id])))
  {
    hide Highest, AllRegistered;
    if PriorsPresent(s.disk, number) {
      var header := s.disk[number].prior;
      AllRegisteredHolds(s.hashmap, s.disk, header + [number], id);
      var t := AfterLoad(s, number);
      if id in t.hashmap && id !in s.hashmap {
        var n :| n in header + [number] && Holds(s.disk, n, id, RecordOf(t.hashmap[id]));
        assert n in ChainAfterLoad(s, number);
      }
    }
  }

  lemma SaveCovers(s: State, settings: Settings, opens: bool)
    requires Safe(s) && Covered(s)
    ensures Safe(AfterSave(s, settings, opens)) && Covered(AfterSave(s, settings, opens))
    ensures AfterSave(s, settings, opens).disk.Keys <= s.disk.Keys + {s.savenumber}
  {
    var t := AfterSave(s, settings, opens);
    forall id | id in t.hashmap && !t.hashmap[id].changed
      ensures exists n :: n in Chain(t) && Holds(t.disk, n, id, RecordOf(t.hashmap[id]))
    {
      if opens && Selected(Incremental(settings, s.savenumber), s.hashmap[id]) {
        assert s.savenumber in Chain(t) && Holds(t.disk, s.savenumber, id, RecordOf(t.hashmap[id]));
      } else {
        var n :| n in Chain(s) && Holds(s.disk, n, id, RecordOf(s.hashmap[id]));
        assert n in Chain(t) && Holds(t.disk, n, id, RecordOf(t.hashmap[id]));
      }
    }
  }

  lemma StepCovers(s: State, e: Event)
    requires Safe(s) && Covered(s) && LoadKeepsItsForms(s, e)
    requires forall n :: n in s.disk ==> n > 0
    ensures Safe(Step(s, e)) && Covered(Step(s, e))
    ensures forall n :: n in Step(s, e).disk ==> n > 0
  {
    hide AfterSave, Highest, AfterRead;
    var t := Step(s, e);
    match e
    case Save(settings, opens) => SaveCovers(s, settings, opens);
    case Load =>
      HighestBounds(s.disk.Keys);
      if t != s { LoadCoversIff(s, Highest(s.disk.Keys)); }
    case LoadNumber(number) => if t != s { LoadCoversIff(s, number); }
    case Clear =>
    case Restart =>
    case _ =>
      forall id | id in t.hashmap && !t.hashmap[id].changed
        ensures exists n :: n in Chain(t) && Holds(t.disk, n, id, RecordOf(t.hashmap[id]))
      {
        var n :| n in Chain(s) && Holds(s.disk, n, id, RecordOf(s.hashmap[id]));
      }
  }

  lemma {:induction false} RunCovers(events: seq<Event>)
    requires LoadsKeepTheirForms(events)
    ensures Safe(Run(events)) && Covered(Run(events)) && forall n :: n in Run(events).disk ==> n > 0
  {
    if events != [] {
      var before := events[..|events| - 1];
      forall k | 0 <= k < |before| ensures before[..k] == events[..k] {}
      RunCovers(before);
      StepCovers(Run(before), events[|events| - 1]);
    }
  }

  /** After every save that could be written, every form of the table is stored, as it is now, in that save or
      in one that its header names. */
  lemma SavedFormsAreCovered(events: seq<Event>, settings: Settings)
    requires LoadsKeepTheirForms(events + [Save(settings, true)])
    ensures var s := Run(events + [Save(settings, true)]);
            && s.loadedsavenumber in s.disk
            && forall id :: id in s.hashmap ==>
                 exists n :: n in s.disk[s.loadedsavenumber].prior + [s.loadedsavenumber]
                             && Holds(s.disk, n, id, RecordOf(s.hashmap[id]))
  {
    var all := events + [Save(settings, true)];
    assert all[..|all| - 1] == events;
    RunCovers(all);
    var s := Run(all);
    assert Chain(s) == s.disk[s.loadedsavenumber].prior + [s.loadedsavenumber] by {
      RunCoversPrefix(events, settings);
    }
    assert forall id :: id in s.hashmap ==> !s.hashmap[id].changed;
  }

  lemma RunCoversPrefix(events: seq<Event>, settings: Settings)
    requires LoadsKeepTheirForms(events + [Save(settings, true)])
    ensures Safe(Run(events))
  {
    var all := events + [Save(settings, true)];
    forall k | 0 <= k < |events| ensures events[..k] == all[..k] && events[k] == all[k] {}
    assert LoadsKeepTheirForms(events);
    RunCovers(events);
  }

  /** What a save that opens makes of a table with one form, if the form is written. */
  lemma SavedAlone(s: State, settings: Settings, id: FormID, f: Form)
    requires s.hashmap == map[id := f] && Selected(Incremental(settings, s.savenumber), f)
    ensures var priors := if Incremental(settings, s.savenumber) then Named(s).priorsaves else [];
            AfterSave(s, settings, true)
            == State(Named(s).savenumber, Named(s).loadedsavenumber, priors,
                     map[id := f.(saved := true, changed := false)],
                     s.disk[s.savenumber := SaveFile(priors, map[id := RecordOf(f)])])
  {
    assert Written(s.hashmap, Incremental(settings, s.savenumber)) == map[id := RecordOf(f)];
  }

  /** A load into a table that is not empty can leave a form without a copy in the chain: the form was stored
      in save 2 and save 1 is loaded over it. */
  lemma LoadOverTheTableIsNotCovered()
    ensures var full := Save(Settings(false, 0), true);
            !Covered(Run([full, Create(100, 7), full, LoadNumber(1)]))
  {
    hide Run, AfterSave, AfterLoad, Covered;
    var full := Save(Settings(false, 0), true);
    EmptyThenOne();
    LoadedOver();
    RunSnoc([], full, [full]);
    RunSnoc([full], Create(100, 7), [full, Create(100, 7)]);
    RunSnoc([full, Create(100, 7)], full, [full, Create(100, 7), full]);
    RunSnoc([full, Create(100, 7), full], LoadNumber(1), [full, Create(100, 7), full, LoadNumber(1)]);
  }

  const EMPTY_SAVED: State := State(2, 1, [], map[], map[1 := SaveFile([], map[])])
  const ONE_SAVED: State := State(3, 2, [], map[100 := Form(7, false, true, false)],
                                  map[1 := SaveFile([], map[]), 2 := SaveFile([], map[100 := Record(7, false)])])

  lemma EmptyThenOne()
    ensures AfterSave(Started(map[]), Settings(false, 0), true) == EMPTY_SAVED
    ensures AfterSave(EMPTY_SAVED.(hashmap := map[100 := Form(7, false, false, true)]), Settings(false, 0), true)
            == ONE_SAVED
  {
    assert Written(map[], false) == map[];
    SavedAlone(EMPTY_SAVED.(hashmap := map[100 := Form(7, false, false, true)]), Settings(false, 0), 100,
               Form(7, false, false, true));
    assert EMPTY_SAVED.disk[2 := SaveFile([], map[100 := Record(7, false)])] == ONE_SAVED.disk;
  }

  lemma LoadedOver()
    ensures !Covered(AfterLoad(ONE_SAVED, 1))
  {
    hide AfterLoad, Covered;
    LoadCoversIff(ONE_SAVED, 1);
    assert ChainAfterLoad(ONE_SAVED, 1) == [1] && 100 in ONE_SAVED.hashmap && 100 !in ONE_SAVED.disk[1].records;
  }

  // Order

  predicate Increasing(q: seq<nat>) {
    forall i, j :: 0 <= i < j < |q| ==> q[i] < q[j]
  }

  ghost predicate DiskOrdered(disk: map<nat, SaveFile>) {
    forall n :: n in disk ==> n > 0 && Increasing(disk[n].prior + [n])
  }

  /** The chain is strictly increasing and below the number of the next save; so is every header. */
  ghost predicate Ordered(s: State) {
    && DiskOrdered(s.disk)
    && Increasing(Chain(s) + [s.savenumber]) && s.savenumber > 0
    && (s.loadedsavenumber > 0 || s.priorsaves == [])
  }

  /** What a caller has to know before loading: the file names prior saves, or none are left over, or the
      left-over ones are older than the file. */
  predicate LeavesNoStalePriors(s: State, number: nat)
    requires number in s.disk
  {
    s.disk[number].prior != [] || s.priorsaves == [] || s.priorsaves[|s.priorsaves| - 1] < number
  }

  /** A load keeps the order exactly under that condition. */
  lemma LoadKeepsOrder(s: State, number: nat)
    requires Ordered(s) && number in s.disk
    ensures Ordered(AfterLoad(s, number)) <==> LeavesNoStalePriors(s, number)
  {
    HighestBounds(s.disk.Keys);
    var t := AfterLoad(s, number);
    var header := s.disk[number].prior;
    assert Chain(t) == t.priorsaves + [number];
    IncreasingSnoc(Chain(t), t.savenumber);
    IncreasingSnoc(t.priorsaves, number);
    IncreasingSnoc(Chain(s), s.savenumber);
    if s.loadedsavenumber > 0 {
      IncreasingSnoc(s.priorsaves, s.loadedsavenumber);
    }
  }

  lemma IncreasingSnoc(q: seq<nat>, x: nat)
    ensures Increasing([])
    ensures Increasing(q + [x]) <==> Increasing(q) && (q == [] || q[|q| - 1] < x)
  {
    var r := q + [x];
    if Increasing(r) {
      forall i, j | 0 <= i < j < |q| ensures q[i] < q[j] {
        assert r[i] < r[j];
      }
      assert q != [] ==> r[|q| - 1] < r[|q|];
    }
  }

  lemma SaveKeepsOrder(s: State, settings: Settings, opens: bool)
    requires Ordered(s)
    ensures Ordered(AfterSave(s, settings, opens))
  {
    hide AfterSave, Chain, Increasing;
    var t, k := AfterSave(s, settings, opens), s.savenumber;
    SaveShape(s, settings, opens);
    IncreasingSnoc([], k);
    assert [] + [k] == [k];
    IncreasingSnoc([k], k + 1);
    IncreasingSnoc(Chain(s) + [k], k + 1);
    IncreasingSnoc(Chain(t), t.savenumber);
    forall n | n in t.disk ensures n > 0 && Increasing(t.disk[n].prior + [n]) {
      if !opens || n != k {
        assert t.disk[n] == s.disk[n];
      }
    }
  }

  /** A save either extends the chain by its number or starts a new one. */
  lemma SaveShape(s: State, settings: Settings, opens: bool)
    requires s.savenumber > 0 && (s.loadedsavenumber > 0 || s.priorsaves == [])
    ensures var t, k := AfterSave(s, settings, opens), s.savenumber;
            && t.loadedsavenumber == k && t.savenumber == k + 1
            && (Chain(t) == Chain(s) + [k] || (Chain(t) == [k] && opens))
            && (if opens then k in t.disk && t.disk == s.disk[k := t.disk[k]] && t.disk[k].prior + [k] == Chain(t)
                else t.disk == s.disk)
  {}

  ghost predicate LoadsLeaveNoStalePriors(events: seq<Event>) {
    forall k :: 0 <= k < |events| ==>
                  var s := Run(events[..k]);
                  match events[k]
                  case Load => Highest(s.disk.Keys) in s.disk ==> LeavesNoStalePriors(s, Highest(s.disk.Keys))
                  case LoadNumber(number) => number in s.disk ==> LeavesNoStalePriors(s, number)
                  case _ => true
  }

  /** In every run whose loads leave no stale priors, the header of every save on disk is strictly increasing
      and below the number of that save. */
  lemma {:induction false} HeadersAreIncreasing(events: seq<Event>)
    requires LoadsLeaveNoStalePriors(events)
    ensures Ordered(Run(events))
  {
    if events != [] {
      var before, e := events[..|events| - 1], events[|events| - 1];
      forall k | 0 <= k < |before| ensures before[..k] == events[..k] {}
      HeadersAreIncreasing(before);
      var s := Run(before);
      assert events[..|events| - 1] == before;
      match e
      case Save(settings, opens) => SaveKeepsOrder(s, settings, opens);
      case Load => if Highest(s.disk.Keys) in s.disk { LoadKeepsOrder(s, Highest(s.disk.Keys)); }
      case LoadNumber(number) => if number in s.disk { LoadKeepsOrder(s, number); }
      case _ =>
    }
  }

  /** Without that condition a header can name a save twice: saves 1 and 2 are written, the table is cleared,
      save 1 is loaded and the next save names 1 again. */
  lemma StalePriorsAreNamedAgain()
    ensures var incremental := Settings(true, 0);
            var s := Run([Save(incremental, true), Save(incremental, true), Clear, LoadNumber(1),
                          Save(incremental, true)]);
            3 in s.disk && s.disk[3].prior == [1, 1]
  {
    hide Highest, Run;
    var save := Save(Settings(true, 0), true);
    var s1 := AfterSave(Started(map[]), save.settings, true);
    var s2 := AfterSave(s1, save.settings, true);
    var s3 := s2.(hashmap := map[]);
    var s4 := AfterLoad(s3, 1);
    assert s1.priorsaves == [] && s1.loadedsavenumber == 1 && s1.savenumber == 2 && s1.disk.Keys == {1};
    assert s1.disk[1].prior == [];
    assert s2.priorsaves == [1] && s2.savenumber == 3 && s2.disk.Keys == {1, 2} && s2.disk[1] == s1.disk[1];
    HighestBounds(s3.disk.Keys);
    assert 2 in s3.disk.Keys;
    assert s4.priorsaves == [1] && s4.loadedsavenumber == 1 && s4.savenumber == 3;
    RunSnoc([], save, [save]);
    RunSnoc([save], save, [save, save]);
    RunSnoc([save, save], Clear, [save, save, Clear]);
    RunSnoc([save, save, Clear], LoadNumber(1), [save, save, Clear, LoadNumber(1)]);
    RunSnoc([save, save, Clear, LoadNumber(1)], save, [save, save, Clear, LoadNumber(1), save]);
  }

  lemma RunSnoc(events: seq<Event>, e: Event, all: seq<Event>)
    requires all == events + [e]
    ensures Run(all) == Step(Run(events), e)
    ensures Run([]) == Started(map[])
  {
    assert all[..|events|] == events;
  }

  // What a save writes, and how long the chain gets

  /** The file that a save writes: a full one holds every form and names no save, an incremental one holds
      exactly the forms that have changed and names the whole chain. Nothing that was written counts as changed any
      more, and what was not written stays as it is. */
  lemma WhatASaveWrites(s: State, settings: Settings, id: FormID)
    ensures var full := !settings.incrementalSaveFiles
                        || (settings.createFullSaveEvery != 0 && s.savenumber % settings.createFullSaveEvery == 0);
            var t := AfterSave(s, settings, true);
            && s.savenumber in t.disk && t.disk[s.savenumber].prior == (if full then [] else Chain(s))
            && var records := t.disk[s.savenumber].records;
               && (id in records <==> id in s.hashmap && (full || s.hashmap[id].changed))
               && (id in records ==> records[id] == Record(s.hashmap[id].content, s.hashmap[id].deleted))
               && t.hashmap.Keys == s.hashmap.Keys
               && (id in records ==> t.hashmap[id] == s.hashmap[id].(saved := true, changed := false))
               && (id in s.hashmap && id !in records ==> t.hashmap[id] == s.hashmap[id])
  {}

  /** A deletion goes into the next save, full or incremental, exactly if the form had been written before;
      otherwise nothing of the form is left. */
  lemma DeletionIsWrittenIffSaved(s: State, id: FormID, settings: Settings)
    requires id in s.hashmap
    ensures var t := AfterSave(AfterDelete(s, id), settings, true);
            if s.hashmap[id].saved then
              Holds(t.disk, s.savenumber, id, Record(s.hashmap[id].content, true))
            else
              id !in t.hashmap && id !in t.disk[s.savenumber].records
  {}

  /** No load leaves an old chain in front of a save that names none; saves by number are not loaded. */
  ghost predicate LoadsStartAnew(events: seq<Event>) {
    forall k :: 0 <= k < |events| ==>
                  var s := Run(events[..k]);
                  && !events[k].LoadNumber?
                  && (events[k].Load? && Highest(s.disk.Keys) in s.disk ==>
                        s.disk[Highest(s.disk.Keys)].prior != [] || s.priorsaves == [])
  }

  /** Every save is written, and each `n`-th one is full. */
  ghost predicate FullEvery(events: seq<Event>, n: nat) {
    forall k :: 0 <= k < |events| && events[k].Save? ==>
                  events[k].opens && events[k].settings.createFullSaveEvery == n
  }

  /** No chain reaches back beyond the last number that `n` divides. */
  ghost predicate Short(s: State, n: nat)
    requires n > 0
  {
    && s.savenumber > 0 && |s.priorsaves| <= (s.savenumber - 1) % n
    && forall k :: k in s.disk ==> k > 0 && |s.disk[k].prior| <= k % n
  }

  lemma SaveKeepsShort(s: State, settings: Settings, n: nat)
    requires n > 0 && Short(s, n) && settings.createFullSaveEvery == n
    ensures Short(AfterSave(s, settings, true), n)
  {
    hide Written, Cleaned;
    NextRemainder(s.savenumber, n);
  }

  lemma NextRemainder(k: nat, n: nat)
    requires n > 0 && k > 0
    ensures k % n == 0 || k % n == (k - 1) % n + 1
  {
    var q, r := (k - 1) / n, (k - 1) % n;
    assert k == n * q + (r + 1);
    if r + 1 < n {
      DivUnique(k, n, q);
    } else {
      assert k == n * (q + 1);
      DivUnique(k, n, q + 1);
    }
  }

  /** A load of the highest save continues where that save stands. */
  lemma LoadKeepsShort(s: State, n: nat)
    requires n > 0 && Short(s, n)
    requires var h := Highest(s.disk.Keys); h in s.disk ==> s.disk[h].prior != [] || s.priorsaves == []
    ensures Short(AfterLoad(s, Highest(s.disk.Keys)), n)
  {
    hide AllRegistered, WithoutDeleted, Highest;
  }

  lemma ShortChain(s: State, n: nat)
    requires n > 0 && Short(s, n)
    ensures |Chain(s)| <= n && forall k :: k in s.disk ==> |s.disk[k].prior| < n
  {}

  /** If every `n`-th save is full, no chain and no header with its save ever has more than `n` saves. */
  lemma {:induction false} ChainsAreShort(events: seq<Event>, n: nat)
    requires n > 0 && FullEvery(events, n) && LoadsStartAnew(events)
    ensures Short(Run(events), n)
    ensures |Chain(Run(events))| <= n && forall k :: k in Run(events).disk ==> |Run(events).disk[k].prior| < n
  {
    hide AfterSave, AfterLoad, Highest, Short, Chain;
    if events == [] {
      NothingIsShort(n);
    } else {
      var before, e := events[..|events| - 1], events[|events| - 1];
      forall k | 0 <= k < |before| ensures before[..k] == events[..k] {}
      ChainsAreShort(before, n);
      var s := Run(before);
      assert events[..|events| - 1] == before;
      if e.Save? {
        SaveKeepsShort(s, e.settings, n);
      } else if e.Load? {
        LoadKeepsShort(s, n);
      } else {
        OthersKeepShort(s, e, n);
      }
    }
    ShortChain(Run(events), n);
  }

  lemma NothingIsShort(n: nat)
    requires n > 0
    ensures Short(Started(map[]), n)
  {}

  lemma OthersKeepShort(s: State, e: Event, n: nat)
    requires n > 0 && Short(s, n) && !e.Save? && !IsLoad(e)
    ensures Short(Step(s, e), n)
  {}

  // Reloading

  ghost predicate AllOpened(events: seq<Event>) {
    forall k :: 0 <= k < |events| && events[k].Save? ==> events[k].opens
  }

  /** Every save that a header or the chain names is on disk. */
  ghost predicate Complete(s: State) {
    && (forall n :: n in Chain(s) ==> n in s.disk)
    && forall n :: n in s.disk ==> PriorsPresent(s.disk, n)
  }

  lemma {:induction false} RunIsComplete(events: seq<Event>)
    requires AllOpened(events)
    ensures Complete(Run(events)) && Run(events).savenumber > 0
  {
    if events != [] {
      var before, e := events[..|events| - 1], events[|events| - 1];
      RunIsComplete(before);
      assert events[|events| - 1] == e;
      StepIsComplete(Run(before), e);
    }
  }

  lemma StepIsComplete(s: State, e: Event)
    requires Complete(s) && s.savenumber > 0 && (e.Save? ==> e.opens)
    ensures Complete(Step(s, e)) && Step(s, e).savenumber > 0
  {
    hide AfterSave, AfterLoad, Highest;
    if e.Save? {
      SaveIsComplete(s, e.settings);
    } else if IsLoad(e) {
      LoadIsComplete(s, if e.Load? then Highest(s.disk.Keys) else e.number);
    }
  }

  lemma LoadIsComplete(s: State, number: nat)
    requires Complete(s) && s.savenumber > 0
    ensures Complete(AfterLoad(s, number)) && AfterLoad(s, number).savenumber > 0
  {
    hide Highest, AllRegistered, WithoutDeleted;
    var t := AfterLoad(s, number);
    if number in s.disk && number > 0 {
      forall n | n in Chain(t) ensures n in t.disk {
        assert n in Chain(s) || n == number || n in s.disk[number].prior;
      }
    }
  }

  lemma SaveIsComplete(s: State, settings: Settings)
    requires Complete(s) && s.savenumber > 0
    ensures Complete(AfterSave(s, settings, true)) && AfterSave(s, settings, true).savenumber > 0
  {
    var t := AfterSave(s, settings, true);
    forall n | n in t.disk ensures PriorsPresent(t.disk, n) {
      if n == s.savenumber {
        assert t.disk[n].prior == Chain(s) || t.disk[n].prior == [];
      } else {
        assert PriorsPresent(s.disk, n) && t.disk[n] == s.disk[n];
      }
    }
  }

  /** Loading into an empty table brings back exactly the forms of which some save of the chain has a record
      that is not deleted; if a save of the chain is missing, none. */
  lemma ReloadedIsWhatTheChainHolds(s: State, number: nat, id: FormID)
    requires s.hashmap == map[] && number in s.disk && number > 0
    ensures id in AfterLoad(s, number).hashmap
            <==> PriorsPresent(s.disk, number)
                 && exists n ::
                      && n in s.disk[number].prior + [number] && id in s.disk[n].records
                      && !s.disk[n].records[id].deleted
  {
    if PriorsPresent(s.disk, number) {
      AllRegisteredHolds(map[], s.disk, s.disk[number].prior + [number], id);
    }
  }

  ghost predicate HasUndeleted(disk: map<nat, SaveFile>, n: nat, id: FormID) {
    n in disk && id in disk[n].records && !disk[n].records[id].deleted
  }

  /** The oldest save of a chain that has an undeleted record of the form is at position `k`. */
  ghost predicate OldestRecord(disk: map<nat, SaveFile>, chain: seq<nat>, id: FormID, k: nat) {
    k < |chain| && HasUndeleted(disk, chain[k], id) && forall j :: 0 <= j < k ==> !HasUndeleted(disk, chain[j], id)
  }

  /** A record does not replace a form that is registered, so the oldest one wins. */
  lemma {:induction false} OldestRecordWins(disk: map<nat, SaveFile>, chain: seq<nat>, id: FormID, k: nat)
    requires (forall n :: n in chain ==> n in disk) && OldestRecord(disk, chain, id, k)
    ensures id in AllRegistered(map[], disk, chain)
    ensures AllRegistered(map[], disk, chain)[id] == Form(disk[chain[k]].records[id].content, false, true, false)
  {
    var before, last := chain[..|chain| - 1], |chain| - 1;
    if k < last {
      assert forall j :: 0 <= j <= k ==> before[j] == chain[j];
      OldestRecordWins(disk, before, id, k);
    } else {
      AllRegisteredHolds(map[], disk, before, id);
      forall n | n in before ensures !HasUndeleted(disk, n, id) {
        var j :| 0 <= j < last && before[j] == n;
        assert chain[j] == n;
      }
    }
  }

  lemma {:induction false} OldestExists(disk: map<nat, SaveFile>, chain: seq<nat>, id: FormID, i: nat) returns (k: nat)
    requires i < |chain| && HasUndeleted(disk, chain[i], id)
    ensures OldestRecord(disk, chain, id, k)
    decreases i
  {
    if j :| 0 <= j < i && HasUndeleted(disk, chain[j], id) {
      k := OldestExists(disk, chain, id, j);
    } else {
      k := i;
    }
  }

  /** `r` is the oldest undeleted record of the form in the chain. */
  ghost predicate OldestIs(disk: map<nat, SaveFile>, chain: seq<nat>, id: FormID, r: Record) {
    exists k: nat :: OldestRecord(disk, chain, id, k) && disk[chain[k]].records[id] == r
  }

  lemma OldestIsOne(disk: map<nat, SaveFile>, chain: seq<nat>, id: FormID, r: Record, r': Record)
    requires OldestIs(disk, chain, id, r) && OldestIs(disk, chain, id, r')
    ensures r == r'
  {
    var k: nat :| OldestRecord(disk, chain, id, k) && disk[chain[k]].records[id] == r;
    var k': nat :| OldestRecord(disk, chain, id, k') && disk[chain[k']].records[id] == r';
    assert k == k';
  }

  /** Each form that is loaded into an empty table is as the oldest undeleted record of the chain has it. */
  lemma ReloadedIsTheOldestRecord(s: State, number: nat, id: FormID)
    requires s.hashmap == map[] && number in s.disk && number > 0
    ensures var t, chain := AfterLoad(s, number).hashmap, s.disk[number].prior + [number];
            id in t ==>
              && t[id] == Form(t[id].content, false, true, false)
              && OldestIs(s.disk, chain, id, Record(t[id].content, false))
  {
    hide Highest, AllRegistered;
    ReloadedIsWhatTheChainHolds(s, number, id);
    if id in AfterLoad(s, number).hashmap {
      var chain := s.disk[number].prior + [number];
      var n :| n in chain && HasUndeleted(s.disk, n, id);
      var i :| 0 <= i < |chain| && chain[i] == n;
      var k := OldestExists(s.disk, chain, id, i);
      OldestRecordWins(s.disk, chain, id, k);
    }
  }

  /** If every save so far could be written, the last one can be loaded by a new process. That brings back at
      least every form of the table that is not deleted, and it brings the form back as it was saved exactly
      if the oldest undeleted record of the chain is the record of the form as it is. */
  lemma ReloadBringsBackEveryForm(events: seq<Event>, settings: Settings, id: FormID)
    requires AllOpened(events) && LoadsKeepTheirForms(events + [Save(settings, true)])
    ensures var s := Run(events + [Save(settings, true)]);
            var t := AfterLoad(Started(s.disk), s.loadedsavenumber).hashmap;
            var chain := s.disk[s.loadedsavenumber].prior + [s.loadedsavenumber];
            id in s.hashmap && !s.hashmap[id].deleted ==>
              && id in t
              && (t[id].content == s.hashmap[id].content
                  <==> OldestIs(s.disk, chain, id, RecordOf(s.hashmap[id])))
  {
    hide AfterLoad, Highest, AllRegistered, Run, OldestIs, Incremental;
    var all := events + [Save(settings, true)];
    var s := Run(all);
    SavedFormsAreCovered(events, settings);
    RunIsComplete(all);
    RunCovers(all);
    if id in s.hashmap && !s.hashmap[id].deleted {
      var number := s.loadedsavenumber;
      var chain := s.disk[number].prior + [number];
      var n :| n in chain && Holds(s.disk, n, id, RecordOf(s.hashmap[id]));
      assert PriorsPresent(s.disk, number);
      ReloadedIsWhatTheChainHolds(Started(s.disk), number, id);
      ReloadedIsTheOldestRecord(Started(s.disk), number, id);
      var found := AfterLoad(Started(s.disk), number).hashmap[id];
      if OldestIs(s.disk, chain, id, RecordOf(s.hashmap[id])) {
        OldestIsOne(s.disk, chain, id, RecordOf(s.hashmap[id]), Record(found.content, false));
      }
    }
  }

  /** A form that changed after its first save comes back as it was then. */
  lemma ReloadCanBeStale()
    ensures var incremental := Settings(true, 0);
            var s := Run([Create(100, 7), Save(incremental, true), Change(100, 8), Save(incremental, true)]);
            && 100 in s.hashmap && s.hashmap[100].content == 8 && 2 in s.disk
            && 100 in AfterLoad(Started(s.disk), 2).hashmap && AfterLoad(Started(s.disk), 2).hashmap[100].content == 7
  {
    hide Run, AfterSave, AfterLoad;
    var create, save := Create(100, 7), Save(Settings(true, 0), true);
    SevenThenEight();
    SevenIsLoaded();
    RunSnoc([], create, [create]);
    RunSnoc([create], save, [create, save]);
    RunSnoc([create, save], Change(100, 8), [create, save, Change(100, 8)]);
    assert SEVEN_SAVED.hashmap[100 := Form(8, false, true, true)] == map[100 := Form(8, false, true, true)];
    RunSnoc([create, save, Change(100, 8)], save, [create, save, Change(100, 8), save]);
  }

  const SEVEN_SAVED: State := State(2, 1, [], map[100 := Form(7, false, true, false)],
                                    map[1 := SaveFile([], map[100 := Record(7, false)])])
  const EIGHT_SAVED: State := State(3, 2, [1], map[100 := Form(8, false, true, false)],
                                    map[1 := SaveFile([], map[100 := Record(7, false)]),
                                        2 := SaveFile([1], map[100 := Record(8, false)])])

  lemma SevenThenEight()
    ensures AfterSave(State(1, 0, [], map[100 := Form(7, false, false, true)], map[]), Settings(true, 0), true)
            == SEVEN_SAVED
    ensures AfterSave(SEVEN_SAVED.(hashmap := map[100 := Form(8, false, true, true)]), Settings(true, 0), true)
            == EIGHT_SAVED
  {
    SavedAlone(State(1, 0, [], map[100 := Form(7, false, false, true)], map[]), Settings(true, 0), 100,
               Form(7, false, false, true));
    SavedAlone(SEVEN_SAVED.(hashmap := map[100 := Form(8, false, true, true)]), Settings(true, 0), 100,
               Form(8, false, true, true));
    assert [] + [1] == [1] && SEVEN_SAVED.disk[2 := SaveFile([1], map[100 := Record(8, false)])] == EIGHT_SAVED.disk;
  }

  lemma SevenIsLoaded()
    ensures var t := AfterLoad(Started(EIGHT_SAVED.disk), 2).hashmap; 100 in t && t[100].content == 7
  {
    hide Highest, AllRegistered;
    var chain := [1] + [2];
    assert chain[0] == 1 && OldestRecord(EIGHT_SAVED.disk, chain, 100, 0);
    OldestRecordWins(EIGHT_SAVED.disk, chain, 100, 0);
  }

  /** A full save brings back exactly the forms that are not deleted, as they were. */
  lemma FullSaveRestoresTheTable(s: State, settings: Settings)
    requires s.savenumber > 0 && !Incremental(settings, s.savenumber)
    ensures var t := AfterSave(s, settings, true);
            AfterLoad(Started(t.disk), t.loadedsavenumber).hashmap
            == map id | id in s.hashmap && !s.hashmap[id].deleted :: Form(s.hashmap[id].content, false, true, false)
  {
    var t := AfterSave(s, settings, true);
    var number := s.savenumber;
    assert t.disk[number] == SaveFile([], Written(s.hashmap, false));
    LoadOfOneFile(t.disk, number);
    assert Loaded(t.disk[number].records)
           == map id | id in s.hashmap && !s.hashmap[id].deleted :: Form(s.hashmap[id].content, false, true, false);
  }

  lemma LoadOfOneFile(disk: map<nat, SaveFile>, number: nat)
    requires number in disk && number > 0 && disk[number].prior == []
    ensures AfterLoad(Started(disk), number).hashmap == Loaded(disk[number].records)
  {
    hide Highest;
    assert PriorsPresent(disk, number);
    assert [] + [number] == [number];
    assert AllRegistered(map[], disk, [number]) == Registered(map[], disk[number].records) by {
      assert ([number])[..0] == [];
    }
  }

  /** After a save that could not be opened the following incremental save names a file that does not exist,
      and loading it reads nothing. */
  lemma MissingPriorBlocksLoad()
    ensures var incremental := Settings(true, 0);
            var s := Run([Create(100, 7), Save(incremental, false), Save(incremental, true)]);
            && 2 in s.disk && 1 !in s.disk && s.disk[2].prior == [1] && 100 in s.disk[2].records
            && AfterLoad(Started(s.disk), 2).hashmap == map[]
  {
    hide Highest, Run;
    var create, failed, save := Create(100, 7), Save(Settings(true, 0), false), Save(Settings(true, 0), true);
    var s1 := Step(Started(map[]), create);
    var s2 := Step(s1, failed);
    var s := Step(s2, save);
    assert s1.hashmap == map[100 := Form(7, false, false, true)];
    assert s2.hashmap == s1.hashmap && s2.priorsaves == [] && s2.loadedsavenumber == 1 && s2.savenumber == 2;
    assert s.disk.Keys == {2} && s.disk[2].prior == [1] && 1 in s.disk[2].prior;
    RunSnoc([], create, [create]);
    RunSnoc([create], failed, [create, failed]);
    RunSnoc([create, failed], save, [create, failed, save]);
  }

  /** A deleted form comes back if an earlier save of the chain still has it. */
  lemma DeletedFormComesBack()
    ensures var incremental := Settings(true, 0);
            var s := Run([Create(100, 7), Save(incremental, true), Delete(100), Save(incremental, true)]);
            && 100 in s.hashmap && s.hashmap[100].deleted
            && 100 in AfterLoad(Started(s.disk), 2).hashmap
  {
    hide AfterSave, AfterLoad, AfterDelete;
    var create, save := Create(100, 7), Save(Settings(true, 0), true);
    DeletedOnDisk();
    RunSnoc([], create, [create]);
    RunSnoc([create], save, [create, save]);
    RunSnoc([create, save], Delete(100), [create, save, Delete(100)]);
    RunSnoc([create, save, Delete(100)], save, [create, save, Delete(100), save]);
  }

  lemma DeletedOnDisk()
    ensures var settings, s1 := Settings(true, 0), State(1, 0, [], map[100 := Form(7, false, false, true)], map[]);
            var s := AfterSave(AfterDelete(AfterSave(s1, settings, true), 100), settings, true);
            && 100 in s.hashmap && s.hashmap[100].deleted
            && 2 in s.disk && 100 in AfterLoad(Started(s.disk), 2).hashmap
  {
    hide Highest, AllRegistered;
    var settings, s1 := Settings(true, 0), State(1, 0, [], map[100 := Form(7, false, false, true)], map[]);
    var s2 := AfterSave(s1, settings, true);
    var s3 := AfterDelete(s2, 100);
    var s := AfterSave(s3, settings, true);
    assert s2.hashmap[100] == Form(7, false, true, false) && s2.priorsaves == [] && s2.savenumber == 2;
    assert s2.disk.Keys == {1} && s2.disk[1].records[100] == Record(7, false);
    assert s3.hashmap[100] == Form(7, true, true, true);
    assert s.hashmap[100].deleted && s.disk.Keys == {1, 2} && s.disk[2].prior == [1] && s.disk[1] == s2.disk[1];
    ReloadedIsWhatTheChainHolds(Started(s.disk), 2, 100);
    assert 1 in [1] + [2];
  }
}

/** The object that saves and loads. */
module SaveLoading {
  import opened Basics
  import opened SaveChains

  class Data {
    var savenumber: nat
    var loadedsavenumber: nat
    var priorsaves: seq<nat>
    var hashmap: map<FormID, Form>
    var disk: map<nat, SaveFile>

    ghost function Now(): State
      reads this
    {
      State(savenumber, loadedsavenumber, priorsaves, hashmap, disk)
    }

    constructor (disk: map<nat, SaveFile>)
      ensures Now() == Started(disk)
    {
      savenumber, loadedsavenumber, priorsaves, hashmap := 1, 0, [], map[];
      this.disk := disk;
    }

    /** Every name is used once, even if the file can then not be opened. */
    method GetSaveName() returns (number: nat)
      modifies this`savenumber, this`loadedsavenumber, this`priorsaves
      ensures Now() == Named(old(Now())) && number == old(savenumber)
    {
      number := savenumber;
      if loadedsavenumber > 0 {
        priorsaves := priorsaves + [loadedsavenumber];
      }
      loadedsavenumber := savenumber;
      savenumber := savenumber + 1;
    }

    method Save(settings: Settings, opens: bool)
      modifies this
      ensures Now() == AfterSave(old(Now()), settings, opens)
    {
      var useincrementalsave := settings.incrementalSaveFiles &&
      (settings.createFullSaveEvery == 0 || savenumber % settings.createFullSaveEvery != 0);
      var name := GetSaveName();
      if opens {
        var header: seq<nat> := [];
        if useincrementalsave {
          header := priorsaves;
        } else {
          priorsaves := [];
        }
        var records := WriteRecords(useincrementalsave);
        disk := disk[name := SaveFile(header, records)];
      }
    }

    method WriteRecords(useincrementalsave: bool) returns (records: map<FormID, Record>)
      modifies this`hashmap
      ensures records == Written(old(hashmap), useincrementalsave)
      ensures hashmap == Cleaned(old(hashmap), useincrementalsave)
    {
      records := map[];
      var todo := hashmap.Keys;
      ghost var table := hashmap;
      while todo != {}
        invariant todo <= table.Keys && hashmap.Keys == table.Keys
        invariant forall id :: id in table ==> hashmap[id] == if id in todo then table[id]
                  else Clean(useincrementalsave, table[id])
        invariant forall id :: id in records <==> id in table && id !in todo && Selected(useincrementalsave, table[id])
        invariant forall id :: id in records ==> records[id] == RecordOf(table[id])
        decreases todo
      {
        var id :| id in todo;
        todo := todo - {id};
        if useincrementalsave && !hashmap[id].changed {
          continue;
        }
        records := records[id := RecordOf(hashmap[id])];
        hashmap := hashmap[id := hashmap[id].(saved := true, changed := false)];
      }
    }

    /** A form that is already in the table is not replaced. */
    method RegisterForm(id: FormID, form: Form)
      modifies this`hashmap
      ensures hashmap == if id in old(hashmap) then old(hashmap) else old(hashmap)[id := form]
    {
      if id !in hashmap {
        hashmap := hashmap[id := form];
      }
    }

    method ReadRecords(records: map<FormID, Record>)
      modifies this`hashmap
      ensures hashmap == Registered(old(hashmap), records)
    {
      ghost var table := hashmap;
      ghost var all := Registered(table, records);
      var todo := records.Keys;
      while todo != {}
        invariant todo <= records.Keys
        invariant forall id :: id in hashmap <==> id in table || (id in all && id !in todo)
        invariant forall id :: id in hashmap ==> hashmap[id] == all[id]
        decreases todo
      {
        var id :| id in todo;
        todo := todo - {id};
        if !records[id].deleted {
          RegisterForm(id, Form(records[id].content, false, true, false));
        }
      }
    }

    method LoadIntern(number: nat, ignorepriorsaves: bool)
      requires number in disk
      modifies this`hashmap, this`priorsaves
      ensures if ignorepriorsaves then priorsaves == old(priorsaves)
              && hashmap == Registered(old(hashmap), disk[number].records)
              else Now() == AfterRead(old(Now()), number)
      decreases !ignorepriorsaves
    {
      hide AllRegistered, Registered;
      var file := disk[number];
      var abort := false;
      if !ignorepriorsaves && |file.prior| > 0 {
        priorsaves := file.prior;
        var x := 0;
        while x < |file.prior|
          invariant 0 <= x <= |file.prior| && !abort && priorsaves == file.prior && hashmap == old(hashmap)
          invariant forall k :: 0 <= k < x ==> file.prior[k] in disk
        {
          if file.prior[x] !in disk {
            abort := true;
            assert file.prior[x] in disk[number].prior;
            break;
          }
          x := x + 1;
        }
        if !abort {
          assert PriorsPresent(disk, number);
          assert file.prior[..0] == [];
          x := 0;
          LastRegistered(old(hashmap), disk, [], number);
          while x < |file.prior|
            invariant 0 <= x <= |file.prior|
            invariant priorsaves == file.prior
            invariant hashmap == AllRegistered(old(hashmap), disk, file.prior[..x])
          {
            LoadIntern(file.prior[x], true);
            LastRegistered(old(hashmap), disk, file.prior[..x], file.prior[x]);
            assert file.prior[..x] + [file.prior[x]] == file.prior[..x + 1];
            x := x + 1;
          }
          assert file.prior[..x] == file.prior;
        }
      }
      if !abort {
        ReadRecords(file.records);
        if !ignorepriorsaves {
          LastRegistered(old(hashmap), disk, file.prior, number);
        }
      }
      if !ignorepriorsaves {
        hashmap := map id | id in hashmap && !hashmap[id].deleted :: hashmap[id];
      }
    }

    method HighestNumber() returns (number: nat)
      ensures number == Highest(disk.Keys)
    {
      number := 0;
      var todo := disk.Keys;
      while todo != {}
        invariant todo <= disk.Keys
        invariant forall n :: n in disk && n !in todo ==> n <= number
        invariant number == 0 || number in disk.Keys
        decreases todo
      {
        var n :| n in todo;
        todo := todo - {n};
        if n > number {
          number := n;
        }
      }
      HighestBounds(disk.Keys);
    }

    /** Load the save with the highest number. */
    method Load()
      modifies this
      ensures Now() == AfterLoad(old(Now()), Highest(old(disk).Keys))
    {
      var number := HighestNumber();
      HighestBounds(disk.Keys);
      if number != 0 {
        savenumber := number + 1;
        loadedsavenumber := number;
        LoadIntern(number, false);
      }
    }

    method LoadNumber(number: nat)
      modifies this
      ensures Now() == AfterLoad(old(Now()), number)
    {
      var highest := HighestNumber();
      if number in disk && number != 0 {
        loadedsavenumber := number;
        savenumber := highest + 1;
        LoadIntern(number, false);
      }
    }

    method DeleteForm(id: FormID)
      modifies this`hashmap
      ensures Now() == AfterDelete(old(Now()), id)
    {
      if id in hashmap {
        if hashmap[id].saved {
          hashmap := hashmap[id := hashmap[id].(deleted := true, changed := true)];
        } else {
          hashmap := hashmap - {id};
        }
      }
    }
  }
}
