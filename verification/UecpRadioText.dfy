/** From the UECP messages that load the RadioText buffer (modules/uecp.lua) to the rotation on air. */
module UecpRadioText {
  import opened Octets
  import Text
  import RadioText
  import opened CyclicBuffer
  import R = RadioTextRotation
  import opened UecpMessages
  import opened UecpDispatch

  /** A text as the encoder stores it. */
  function CharsOf(s: Bytes): (t: Text.Chars)
    ensures |t| == |s|
  {
    seq(|s|, i requires 0 <= i < |s| => s[i] as bv8)
  }

  function EntryOf(e: Entry<Bytes>): Entry<Text.Chars> {
    Entry(CharsOf(e.text), e.numberTx, e.toggleAb)
  }

  function EntriesOf(es: seq<Entry<Bytes>>): (r: seq<Entry<Text.Chars>>)
    ensures |r| == |es|
  {
    seq(|es|, i requires 0 <= i < |es| => EntryOf(es[i]))
  }

  /** What a write does to the RadioText of its programme. */
  function ActionsOf(w: Write): seq<RadioText.Action> {
    match w
    case ShowRt(text, toggle) =>
      [RadioText.SetText(CharsOf(text))] + (if toggle then [RadioText.ToggleAb] else []) + [RadioText.Enable(true)]
    case DisableRt => [RadioText.Enable(false)]
    case _ => []
  }

  /** Entries that one message can carry. */
  predicate Carried(e: Entry<Bytes>) {
    e.numberTx < 16 && |e.text| < 255 && CR !in e.text
  }

  /** The message for an entry, addressed to the programme on air: buffer configuration 0 loads, 2 appends. */
  function EntryMessage(e: Entry<Bytes>, buffer: Octet): Message
    requires Carried(e) && buffer < 4
  {
    Rt(0, 0, (if e.toggleAb then 1 else 0) + 2 * e.numberTx + 32 * buffer, e.text)
  }

  lemma {:induction false} NoCr(t: Bytes)
    requires CR !in t
    ensures BeforeCr(t) == t
  {
    if t != [] {
      NoCr(t[1..]);
    }
  }

  lemma LoadCommand(e: Entry<Bytes>)
    requires Carried(e) && e.text != []
    ensures CommandOf(EntryMessage(e, 0)) == RtLoad(0, e)
  {
    NoCr(e.text);
  }

  lemma AppendCommand(e: Entry<Bytes>)
    requires Carried(e)
    ensures CommandOf(EntryMessage(e, 2)) == RtAppend(e)
  {
    NoCr(e.text);
  }

  function Appends(more: seq<Entry<Bytes>>): (ms: seq<Message>)
    requires forall i :: 0 <= i < |more| ==> Carried(more[i])
    ensures |ms| == |more| && AllValid(ms) && forall i :: 0 <= i < |ms| ==> ms[i].Rt?
  {
    if more == [] then [] else [EntryMessage(more[0], 2)] + Appends(more[1..])
  }

  lemma {:induction false} AppendsMean(s: State, more: seq<Entry<Bytes>>)
    requires s.Valid() && s.writing == s.output && forall i :: 0 <= i < |more| ==> Carried(more[i])
    ensures Meaning(s, Appends(more)) == Ok(s.(rt := s.rt.(entries := s.rt.entries + more)))
    decreases |more|
  {
    if more == [] {
      assert s.rt.entries + [] == s.rt.entries;
    } else {
      AppendCommand(more[0]);
      var t := s.(rt := s.rt.(entries := s.rt.entries + [more[0]]));
      AppendsMean(t, more[1..]);
      assert Appends(more)[1..] == Appends(more[1..]);
      assert (s.rt.entries + [more[0]]) + more[1..] == s.rt.entries + more;
    }
  }

  /** The field that loads a buffer: the first entry replaces what was there, the others are appended. */
  function LoadField(e: Entry<Bytes>, more: seq<Entry<Bytes>>): (ms: seq<Message>)
    requires Carried(e) && forall i :: 0 <= i < |more| ==> Carried(more[i])
    ensures AllValid(ms) && Aligned(ms)
  {
    [EntryMessage(e, 0)] + Appends(more)
  }

  function LoadedState(s: State, e: Entry<Bytes>, more: seq<Entry<Bytes>>): State {
    s.(programs := Written(s.programs, 0, s.writing, ShowRt(e.text, e.toggleAb)),
      rt := Queue([e] + more, 0, e.numberTx))
  }

  lemma LoadMeans(s: State, e: Entry<Bytes>, more: seq<Entry<Bytes>>)
    requires s.Valid() && s.writing == s.output && Carried(e) && e.text != []
    requires forall i :: 0 <= i < |more| ==> Carried(more[i])
    ensures Meaning(s, LoadField(e, more)) == Ok(LoadedState(s, e, more))
  {
    LoadCommand(e);
    var t := LoadedState(s, e, []);
    assert [e] + [] == [e];
    AppendsMean(t, more);
    assert LoadField(e, more)[1..] == Appends(more);
  }

  lemma SeedOfWrite(e: Entry<Bytes>)
    ensures ActionsOf(ShowRt(e.text, e.toggleAb)) == R.Seed(EntryOf(e))
  {
  }

  /** The RadioText of the programme on air after such a field, with the buffer the field left. */
  function StationOf(v: RadioText.View, e: Entry<Bytes>, q: Queue<Bytes>): (s: R.Station)
    requires v.Valid() && v.pos < 16
    ensures s.Valid()
  {
    R.Station(v.ActAll(ActionsOf(ShowRt(e.text, e.toggleAb))), Queue(EntriesOf(q.entries), q.index, q.remaining))
  }

  lemma EntriesSplit(e: Entry<Bytes>, more: seq<Entry<Bytes>>)
    ensures EntriesOf([e] + more) == [EntryOf(e)] + EntriesOf(more)
  {
  }

  lemma StationRotates(v: RadioText.View, e: Entry<Bytes>, more: seq<Entry<Bytes>>, n: nat)
    requires v.Valid() && v.pos < 16 && more != []
    ensures R.OnAir(StationOf(v, e, Queue([e] + more, 0, e.numberTx)), n)
      <= Rotation(R.Len, R.Frame, EntriesOf([e] + more), 0, v.ab != e.toggleAb, n)
  {
    SeedOfWrite(e);
    EntriesSplit(e, more);
    R.BufferRotates(v, EntryOf(e), EntriesOf(more), n);
  }

  lemma LoadDispatched(s: State, e: Entry<Bytes>, more: seq<Entry<Bytes>>)
    requires s.Valid() && s.writing == s.output && Carried(e) && e.text != []
    requires forall i :: 0 <= i < |more| ==> Carried(more[i])
    ensures Dispatch(s, Field(LoadField(e, more))) == Finished(LoadedState(s, e, more))
  {
    LoadMeans(s, e, more);
    FieldMeans(s, LoadField(e, more));
  }

  /**
   A field that loads a buffer of two entries or more leaves exactly that buffer, shows its first entry on the programme
   on air, and that programme's RadioText then rotates through the entries for ever.
   */
  lemma LoadedBufferRotates(s: State, v: RadioText.View, e: Entry<Bytes>, more: seq<Entry<Bytes>>, n: nat)
    requires s.Valid() && s.writing == s.output && Carried(e) && e.text != [] && more != []
    requires forall i :: 0 <= i < |more| ==> Carried(more[i])
    requires v.Valid() && v.pos < 16
    ensures Dispatch(s, Field(LoadField(e, more))) == Finished(LoadedState(s, e, more))
    ensures R.OnAir(StationOf(v, e, LoadedState(s, e, more).rt), n)
      <= Rotation(R.Len, R.Frame, EntriesOf([e] + more), 0, v.ab != e.toggleAb, n)
  {
    LoadDispatched(s, e, more);
    StationRotates(v, e, more, n);
  }
}
