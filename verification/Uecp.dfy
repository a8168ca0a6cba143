/** The UECP module with its state (modules/uecp.lua): parse_uecp from a received packet to its effects. */
module Uecp {
  import opened Rds
  import opened Octets
  import opened CyclicBuffer
  import opened UecpMessages
  import opened UecpDispatch
  import UecpFrame

  /** What a packet does: nothing unless its frame is accepted, and then what the message loop does. */
  function Received(s: State, packet: Bytes): (t: State)
    requires s.Valid()
    ensures t.Valid()
  {
    var v := UecpFrame.Parse(packet, s.sites, s.encoders);
    if v.Accepted? then Dispatch(s, v.data).s else s
  }

  /** A frame of well-formed messages for this address does exactly what its messages mean, in order. */
  lemma MessagesReceived(s: State, site: nat, encoder: nat, sequence: Octet, ms: seq<Message>)
    requires s.Valid() && AllValid(ms) && Aligned(ms) && site < 1024 && encoder < 64 && |Field(ms)| < 256
    ensures Received(s, UecpFrame.Frame(UecpFrame.WithCrc(UecpFrame.Header(site, encoder, sequence, Field(ms)))))
      == if UecpFrame.Addressed(site, encoder, s.sites, s.encoders) then Meaning(s, ms).s else s
  {
    UecpFrame.FrameDelivers(site, encoder, sequence, Field(ms), s.sites, s.encoders);
    FieldMeans(s, ms);
  }

  /** What the removal loop has passed, and what it has before it; it can stand one past the end. */
  function Front(r: seq<nat>, i: nat): seq<nat> {
    if i > |r| then r else r[..i]
  }

  function Back(r: seq<nat>, i: nat): seq<nat> {
    if i > |r| then [] else r[i..]
  }

  lemma RemovalStep(r: seq<nat>, i: nat, x: nat)
    requires i < |r|
    ensures var r' := if r[i] == x then r[..i] + r[i + 1..] else r;
      Front(r', i + 1) + Removed(Back(r', i + 1), x) == Front(r, i) + Removed(Back(r, i), x)
  {
    var kept, rest := r[..i], r[i..];
    if r[i] == x {
      var r' := r[..i] + r[i + 1..];
      if |rest| == 1 {
        assert r' == kept && Removed(rest, x) == [];
      } else {
        assert Front(r', i + 1) == kept + [rest[1]] && Back(r', i + 1) == rest[2..];
        assert (kept + [rest[1]]) + Removed(rest[2..], x) == kept + ([rest[1]] + Removed(rest[2..], x));
      }
    } else {
      assert Front(r, i + 1) == kept + [rest[0]] && Back(r, i + 1) == rest[1..];
      assert (kept + [rest[0]]) + Removed(rest[1..], x) == kept + ([rest[0]] + Removed(rest[1..], x));
    }
  }

  class UecpModule {
    var programs: seq<Program>
    var writing: nat
    var output: nat
    var siteAddresses: seq<nat>
    var encoderAddresses: seq<nat>
    var rt: Queue<Bytes>
    var freedata: seq<FreeGroup>
    var freedataIndex: nat
    var ascii: seq<Bytes>

    ghost function View(): State
      reads this
    {
      State(programs, writing, output, siteAddresses, encoderAddresses, rt, freedata, freedataIndex, ascii)
    }

    ghost predicate Valid()
      reads this
    {
      View().Valid()
    }

    method SetWritingProgram(p: int)
      requires Valid()
      modifies this`writing
      ensures Valid() && View() == old(View()).(writing := Clamp(p))
    {
      writing := if p >= PROGRAMS then PROGRAMS - 1 else if p < 0 then 0 else p;
    }

    /** A write goes to the programme being written. */
    method Put(w: Write)
      requires Valid()
      modifies this`programs
      ensures Valid() && programs == old(programs)[writing := old(programs)[writing].Apply(w)]
    {
      programs := programs[writing := programs[writing].Apply(w)];
    }

    /** dsn_helper. */
    method DsnHelper(dsn: Octet, w: Write)
      requires Valid()
      modifies this`programs, this`writing
      ensures Valid() && View() == WriteOn(old(View()), dsn, w)
    {
      ghost var start, before := writing, programs;
      if dsn == 0 {
        Put(w);
      } else if dsn == 254 {
        WriteOthers(w);
      } else if dsn == 255 {
        WriteAll(w);
      } else {
        SetWritingProgram(dsn - 1);
        Put(w);
      }
      assert programs == Written(before, dsn, start, w);
    }

    method WriteOthers(w: Write)
      requires Valid()
      modifies this`programs, this`writing
      ensures Valid() && writing == LastWritten(254, old(writing))
      ensures forall p :: 0 <= p < PROGRAMS ==>
        programs[p] == if p == old(writing) then old(programs)[p] else old(programs)[p].Apply(w)
    {
      var start := writing;
      for i := 0 to PROGRAMS
        invariant Valid()
        invariant writing == if i == 0 || (i == 1 && start == 0) then start else if start == i - 1 then i - 2 else i - 1
        invariant forall p :: 0 <= p < PROGRAMS ==>
          programs[p] == if p == start || p >= i then old(programs)[p] else old(programs)[p].Apply(w)
      {
        if i != start {
          SetWritingProgram(i);
          Put(w);
        }
      }
    }

    method WriteAll(w: Write)
      requires Valid()
      modifies this`programs, this`writing
      ensures Valid() && writing == PROGRAMS - 1
      ensures forall p :: 0 <= p < PROGRAMS ==> programs[p] == old(programs)[p].Apply(w)
    {
      for i := 0 to PROGRAMS
        invariant Valid() && (i > 0 ==> writing == i - 1)
        invariant forall p :: 0 <= p < PROGRAMS ==>
          programs[p] == if p >= i then old(programs)[p] else old(programs)[p].Apply(w)
      {
        SetWritingProgram(i);
        Put(w);
      }
    }

    /** The loop that removes an address from the list it runs over. */
    static method RemoveAddress(list: seq<nat>, x: nat) returns (r: seq<nat>)
      ensures r == Removed(list, x)
    {
      r := list;
      var i := 0;
      assert Front(r, 0) == [] && Back(r, 0) == list && [] + Removed(list, x) == Removed(list, x);
      while i < |r|
        invariant i <= |r| + 1 && Front(r, i) + Removed(Back(r, i), x) == Removed(list, x)
        decreases |r| - i
      {
        RemovalStep(r, i, x);
        if r[i] == x {
          r := r[..i] + r[i + 1..];
        }
        i := i + 1;
      }
      assert Front(r, i) == r && Back(r, i) == [];
    }

    static method ChangeList(list: seq<nat>, control: Octet, x: nat) returns (r: seq<nat>)
      ensures r == ChangedList(list, control, x)
    {
      r := list;
      if control == 0 {
        r := RemoveAddress(list, x);
      } else if control == 1 {
        r := r + [x];
      } else if control == 2 {
        r := [];
      }
    }

    /** Data.set_output_program, then Data.set_writing_program. */
    method SelectProgram(dsn: Octet)
      requires Valid()
      modifies this`programs, this`output, this`writing
      ensures Valid() && View() == Switched(old(View()), dsn)
    {
      var p := Clamp(dsn);
      if output != p {
        programs := programs[output := programs[output].(ta := false)];
        programs := programs[p := programs[p].(ta := false)];
        output := p;
        writing := p;
      }
      SetWritingProgram(dsn);
    }

    method PutCustomGroup(x: FreeGroup) returns (ok: bool)
      requires Valid()
      modifies this`programs
      ensures Valid() && View() == FreeEffect(old(View()), x).s && ok == FreeEffect(old(View()), x).Ok?
    {
      var p := programs[writing];
      ok := p.custom.None?;
      if ok {
        programs := programs[writing := p.(custom := Some(x))];
      }
    }

    method ClearRtBuffer(dsn: Octet)
      requires Valid()
      modifies this`programs, this`writing, this`rt
      ensures Valid() && View() == WriteOn(old(View()), dsn, DisableRt).(rt := Queue([], 0, 0))
    {
      rt := Queue([], 0, 0);
      DsnHelper(dsn, DisableRt);
    }

    method LoadRtBuffer(dsn: Octet, e: Entry<Bytes>)
      requires Valid()
      modifies this`programs, this`writing, this`rt
      ensures Valid()
        && View() == WriteOn(old(View()), dsn, ShowRt(e.text, e.toggleAb)).(rt := Queue([e], 0, e.numberTx))
    {
      rt := Queue([e], 0, e.numberTx);
      DsnHelper(dsn, ShowRt(e.text, e.toggleAb));
    }

    /** The commands that only change the module's own lists. */
    method Note(c: Command)
      requires Valid()
        && (c.RtAppend? || c.FreeAdd? || c.FreeClear? || c.Sites? || c.Encoders? || c.Ascii? || c.Nothing?)
      modifies this`rt, this`freedata, this`freedataIndex, this`siteAddresses, this`encoderAddresses, this`ascii
      ensures Valid() && Ok(View()) == Execute(old(View()), c)
    {
      match c {
        case RtAppend(e) => rt := rt.(entries := rt.entries + [e]);
        case FreeAdd(x) => freedata := freedata + [x];
        case FreeClear => freedata, freedataIndex := [], 0;
        case Sites(control, x) => siteAddresses := ChangeList(siteAddresses, control, x);
        case Encoders(control, x) => encoderAddresses := ChangeList(encoderAddresses, control, x);
        case Ascii(text) => ascii := ascii + [text];
        case Nothing =>
      }
    }

    /** What a handler does once it has read its message. */
    method Run(c: Command) returns (ok: bool)
      requires Valid()
      modifies this
      ensures Valid() && View() == Execute(old(View()), c).s && ok == Execute(old(View()), c).Ok?
    {
      ok := true;
      match c {
        case WriteTo(dsn, w) => DsnHelper(dsn, w);
        case RtOff(dsn) => ClearRtBuffer(dsn);
        case RtLoad(dsn, e) => LoadRtBuffer(dsn, e);
        case FreeNow(x) => ok := PutCustomGroup(x);
        case SelectOutput(dsn) => SelectProgram(dsn);
        case _ => Note(c);
      }
    }

    /** The writing programme goes back to the one on air. */
    method Restore()
      requires Valid()
      modifies this`writing
      ensures Valid() && View() == Restored(old(View()))
    {
      SetWritingProgram(output);
    }

    /** One turn of the loop over the message field. */
    method HandleMessage(rest: Bytes) returns (more: bool, advance: nat)
      requires Valid() && rest != []
      modifies this
      ensures Valid() && (more ==> advance >= 2)
      ensures more ==> Dispatch(View(), Rest(rest, advance)) == Dispatch(old(View()), rest)
      ensures !more ==> View() == Dispatch(old(View()), rest).s
    {
      more, advance := false, 0;
      DecodeAdvances(rest);
      var decoded := Decode(rest);
      match decoded {
        case Unknown =>
        case Broken(dsn) =>
          if dsn.Some? {
            SetWritingProgram(FirstWritten(dsn.value, writing));
          }
        case Cmd(c, n) =>
          more := Run(c);
          if more {
            Restore();
            advance := n;
          }
      }
    }

    /** One turn at the front of what is left of the field; yields what is left after it. */
    method Turn(rest: Bytes) returns (more: bool, rest': Bytes)
      requires Valid() && rest != []
      modifies this
      ensures Valid() && |rest'| < |rest|
      ensures Dispatch(old(View()), rest).s == if more then Dispatch(View(), rest').s else View()
    {
      var advance;
      more, advance := HandleMessage(rest);
      rest' := Rest(rest, if more then advance else 1);
    }

    /** The loop over the message field; rest is the string from the consumed bytes on. */
    method DispatchAll(data: Bytes)
      requires Valid()
      modifies this
      ensures Valid() && View() == Dispatch(old(View()), data).s
    {
      var rest, more := data, true;
      while more && rest != []
        invariant Valid()
        invariant Dispatch(old(View()), data).s == if more then Dispatch(View(), rest).s else View()
        decreases |rest|
      {
        more, rest := Turn(rest);
      }
    }

    method ParseUecp(packet: Bytes)
      requires Valid()
      modifies this
      ensures Valid() && View() == Received(old(View()), packet)
    {
      var v := UecpFrame.ParseFrame(packet, siteAddresses, encoderAddresses);
      if v.Accepted? {
        DispatchAll(v.data);
      }
    }
  }
}
