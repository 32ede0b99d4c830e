/** The process-wide speaker store `speaker_db` of voice_recognition.py: a Python dict from
    speaker name to voiceprint, iterated in insertion order. It is modelled as the sequence
    of its items, in iteration order, with pairwise distinct names. */
module SpeakerStore {
  import opened Wrappers

  /** A voiceprint: the flat embedding vector the speaker model returns. */
  type Voiceprint = seq<real>

  /** One item of the store, as `speaker_db.items()` yields it. */
  datatype Entry = Entry(name: string, voiceprint: Voiceprint)

  /** The keys of the store, in iteration order. */
  function Names(entries: seq<Entry>): (names: seq<string>)
    ensures |names| == |entries|
    ensures forall i :: 0 <= i < |entries| ==> names[i] == entries[i].name
  {
    seq(|entries|, i requires 0 <= i < |entries| => entries[i].name)
  }

  /** A dict never holds the same key twice. */
  ghost predicate UniqueNames(entries: seq<Entry>) {
    forall i, j :: 0 <= i < j < |entries| ==> entries[i].name != entries[j].name
  }

  /** Where the key `name` sits in iteration order, or None when it is absent. */
  function IndexOf(entries: seq<Entry>, name: string): (r: Option<nat>)
    ensures r.Some? ==> r.value < |entries| && entries[r.value].name == name
    ensures r.Some? ==> forall j :: 0 <= j < r.value ==> entries[j].name != name
    ensures r.None? <==> name !in Names(entries)
  {
    if entries == [] then None
    else if entries[0].name == name then Some(0)
    else
      match IndexOf(entries[1..], name)
      case None => None
      case Some(i) => Some(i + 1)
  }

  /** The voiceprint `speaker_db[name]` would give, if any. */
  function Lookup(entries: seq<Entry>, name: string): (r: Option<Voiceprint>)
    ensures r.Some? <==> name in Names(entries)
  {
    match IndexOf(entries, name)
    case None => None
    case Some(i) => Some(entries[i].voiceprint)
  }

  /** The store after `speaker_db[name] = voiceprint`: an existing key keeps its place and
      gets the new value; a new key goes at the end. */
  function Enrolled(entries: seq<Entry>, name: string, voiceprint: Voiceprint): (r: seq<Entry>)
    requires UniqueNames(entries)
    ensures UniqueNames(r)
    ensures |r| == if name in Names(entries) then |entries| else |entries| + 1
    ensures forall i :: 0 <= i < |entries| ==>
      r[i] == if entries[i].name == name then Entry(name, voiceprint) else entries[i]
    ensures name !in Names(entries) ==> r[|entries|] == Entry(name, voiceprint)
  {
    if entries == [] then [Entry(name, voiceprint)]
    else if entries[0].name == name then [Entry(name, voiceprint)] + entries[1..]
    else [entries[0]] + Enrolled(entries[1..], name, voiceprint)
  }

  /** In a store with unique names, the position holding a name is the one lookup finds. */
  lemma IndexOfUnique(entries: seq<Entry>, name: string, i: nat)
    requires UniqueNames(entries)
    requires i < |entries| && entries[i].name == name
    ensures IndexOf(entries, name) == Some(i)
  {
    assert Names(entries)[i] == name;
    var f := IndexOf(entries, name).value;
    assert !(i < f) && !(f < i);
  }

  /** After enrolling, `name` gives the new voiceprint and every other name what it gave before. */
  lemma EnrolledLookup(entries: seq<Entry>, name: string, voiceprint: Voiceprint, other: string)
    requires UniqueNames(entries)
    ensures Lookup(Enrolled(entries, name, voiceprint), name) == Some(voiceprint)
    ensures other != name ==>
      Lookup(Enrolled(entries, name, voiceprint), other) == Lookup(entries, other)
  {
    var r := Enrolled(entries, name, voiceprint);
    var k := if name in Names(entries) then IndexOf(entries, name).value else |entries|;
    IndexOfUnique(r, name, k);
    if other != name {
      match IndexOf(entries, other)
      case None =>
        assert forall j :: 0 <= j < |r| ==> r[j].name != other by {
          forall j | 0 <= j < |r| ensures r[j].name != other {
            if j < |entries| {
              assert Names(entries)[j] == entries[j].name;
            }
          }
        }
      case Some(i) =>
        IndexOfUnique(r, other, i);
    }
  }

  /** Re-enrolment overwrites: only the latest voiceprint for a name survives. */
  lemma {:induction false} ReenrolledOverwrites(entries: seq<Entry>, name: string, first: Voiceprint, second: Voiceprint)
    requires UniqueNames(entries)
    ensures Enrolled(Enrolled(entries, name, first), name, second) == Enrolled(entries, name, second)
  {
    if entries != [] && entries[0].name != name {
      ReenrolledOverwrites(entries[1..], name, first, second);
    }
  }

  /** The store object itself: `speaker_db`, updated in place by enrolment. */
  class SpeakerDb {
    var entries: seq<Entry>

    ghost predicate Valid()
      reads this
    {
      UniqueNames(entries)
    }

    /** `speaker_db = {}` at start-up. */
    constructor ()
      ensures Valid() && entries == []
    {
      entries := [];
    }

    /** `speaker_db[name] = voiceprint`. */
    method Enroll(name: string, voiceprint: Voiceprint)
      requires Valid()
      modifies this
      ensures Valid()
      ensures entries == Enrolled(old(entries), name, voiceprint)
      ensures Names(entries) == if name in Names(old(entries)) then Names(old(entries))
                                else Names(old(entries)) + [name]
    {
      match IndexOf(entries, name)
      case Some(i) =>
        entries := entries[i := Entry(name, voiceprint)];
      case None =>
        entries := entries + [Entry(name, voiceprint)];
    }
  }
}
