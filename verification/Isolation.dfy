/**
 The isolation setup a stage's child runs before exec, under every outcome of every system call, the report it writes
 and what the parent takes from it: a guarantee not listed as failed was really made.
 */
module Isolation {
  import opened Text
  import Decimal

  /** What one system call came to: an `OSError` is told apart from anything else raised. */
  datatype Outcome = Done | OsError(detail: string) | Raised(detail: string)

  function Network(): string {
    "network"
  }

  function ReadOnly(): string {
    "read-only candidate"
  }

  function Requested(network: bool, readonly: bool): seq<string> {
    (if network then [Network()] else []) + if readonly then [ReadOnly()] else []
  }

  lemma LabelsDiffer()
    ensures Network() != ReadOnly() && '=' !in Network() && '=' !in ReadOnly()
  {
    assert |Network()| == 7 && |ReadOnly()| == 19;
  }

  function SetOf(names: seq<string>): set<string> {
    set l | l in names
  }

  type Problems = seq<(string, string)>

  /** The labels named in the problems are exactly the failed ones. */
  predicate Named(problems: Problems, failed: set<string>) {
    (forall i :: 0 <= i < |problems| ==> problems[i].0 in failed) && forall l :: l in failed ==>
      exists i :: 0 <= i < |problems| && problems[i].0 == l
  }

  function DropPrefix(): string {
    "capabilities could not be dropped: "
  }

  /** The texts a problem can carry: a failed call's own, or the capability drop's naming of one. */
  ghost predicate FromAnswer(answer: nat -> Outcome, text: string) {
    exists k: nat :: !answer(k).Done? && (text == answer(k).detail || Drops(text, answer(k).detail))
  }

  ghost predicate Drops(text: string, detail: string) {
    exists step: string :: NoBreaks(step) && text == DropPrefix() + step + detail
  }

  /** The characters a text is split into lines at. */
  predicate IsBreak(c: char) {
    0x0A <= c as int <= 0x0D || 0x1C <= c as int <= 0x1E || c as int == 0x85 || c as int == 0x2028 || c as int == 0x2029
  }

  predicate NoBreaks(s: string) {
    forall i :: 0 <= i < |s| ==> !IsBreak(s[i])
  }

  lemma StepNames()
    ensures NoBreaks("") && NoBreaks("cap_last_cap: ") && NoBreaks("capset: ")
  {
  }

  lemma ControlNames()
    ensures NoBreaks("prctl(PR_CAP_AMBIENT_CLEAR_ALL): ") && NoBreaks("prctl(PR_SET_SECUREBITS): ")
  {
  }

  lemma PrivilegeName()
    ensures NoBreaks("prctl(PR_SET_NO_NEW_PRIVS): ")
  {
  }

  lemma BoundingStep(cap: nat)
    ensures NoBreaks("prctl(PR_CAPBSET_DROP, " + Decimal.Print(cap) + "): ")
  {
    var digits := Decimal.Print(cap);
    assert forall i :: 0 <= i < |digits| ==> Decimal.IsDigit(digits[i]);
    assert NoBreaks("prctl(PR_CAPBSET_DROP, ") && NoBreaks(digits) && NoBreaks("): ");
  }

  ghost predicate Texts(problems: Problems, answer: nat -> Outcome) {
    forall i :: 0 <= i < |problems| ==> FromAnswer(answer, problems[i].1)
  }

  /** Every call is refused with an `OSError`. */
  ghost predicate AllRefused(answer: nat -> Outcome) {
    forall k: nat :: answer(k).OsError?
  }

  /** Each problem's text is a refused call's own. */
  ghost predicate OwnTexts(problems: Problems, answer: nat -> Outcome) {
    forall i :: 0 <= i < |problems| ==> exists k: nat :: answer(k).OsError? && problems[i].1 == answer(k).detail
  }

  lemma OwnTextsNext(problems: Problems, answer: nat -> Outcome, name: string, o: Outcome)
    requires o.OsError? && exists k: nat :: o == answer(k)
    ensures OwnTexts(problems, answer) ==> OwnTexts(problems + [(name, o.detail)], answer)
  {
  }

  class Child {
    /** The system's answer to each call, in the order the calls are made. */
    const answer: nat -> Outcome
    /** The highest capability index the kernel knows. */
    const lastCap: nat
    var calls: nat

    // What has been made so far.
    var userNamespace: bool
    var networkNamespace: bool
    var mountNamespace: bool
    var setgroupsDenied: bool
    var uidMapped: bool
    var gidMapped: bool
    var propagationPrivate: bool
    var bound: bool
    var readOnly: bool
    var entered: bool
    var ambientCleared: bool
    var secureBits: bool
    var noNewPrivs: bool
    var bounding: set<nat>
    var setsCleared: bool

    var problems: Problems
    var failed: set<string>

    constructor (answer: nat -> Outcome, lastCap: nat)
      ensures this.answer == answer && this.lastCap == lastCap && problems == [] && failed == {}
      ensures !userNamespace && !networkNamespace && !mountNamespace && !setsCleared
    {
      this.answer, this.lastCap, calls := answer, lastCap, 0;
      userNamespace, networkNamespace, mountNamespace := false, false, false;
      setgroupsDenied, uidMapped, gidMapped := false, false, false;
      propagationPrivate, bound, readOnly, entered := false, false, false, false;
      ambientCleared, secureBits, noNewPrivs, bounding, setsCleared := false, false, false, {}, false;
      problems, failed := [], {};
    }

    ghost predicate MapsWritten()
      reads this`setgroupsDenied, this`uidMapped, this`gidMapped
    {
      setgroupsDenied && uidMapped && gidMapped
    }

    ghost predicate BoundReadOnly()
      reads this`propagationPrivate, this`bound, this`readOnly, this`entered
    {
      propagationPrivate && bound && readOnly && entered
    }

    /** Every capability gone: ambient, securebits, no_new_privs, the whole bounding set and the live sets. */
    ghost predicate Dropped()
      reads this`ambientCleared, this`secureBits, this`noNewPrivs, this`bounding, this`setsCleared
    {
      ambientCleared && secureBits && noNewPrivs && (forall c :: 0 <= c <= lastCap ==> c in bounding) && setsCleared
    }

    /** What it means for a guarantee to hold when the stage execs. */
    ghost predicate Enforced(name: string)
      reads this
    {
      && userNamespace && MapsWritten() && Dropped()
      && (name == Network() ==> networkNamespace)
      && (name == ReadOnly() ==> mountNamespace && BoundReadOnly())
    }

    /** Every requested guarantee not in `done` has its namespace. */
    ghost predicate MadeFor(network: bool, readonly: bool, done: set<string>)
      reads this`networkNamespace, this`mountNamespace
    {
      forall l :: l in Requested(network, readonly) && l !in done ==>
        (l == Network() ==> networkNamespace) && (l == ReadOnly() ==> mountNamespace)
    }

    lemma MountMade(network: bool, readonly: bool)
      requires MadeFor(network, readonly, failed)
      ensures readonly && ReadOnly() !in failed ==> mountNamespace
    {
      AskedFor(network, readonly);
    }

    method Call() returns (o: Outcome)
      modifies this`calls
      ensures o == answer(old(calls))
    {
      o := answer(calls);
      calls := calls + 1;
    }

    /** All the namespaces asked for in one call, or none. */
    method Unshare(user: bool, network: bool, mount: bool) returns (o: Outcome)
      modifies this`calls, this`userNamespace, this`networkNamespace, this`mountNamespace
      ensures exists k :: o == answer(k)
      ensures userNamespace == (old(userNamespace) || (user && o.Done?))
      ensures networkNamespace == (old(networkNamespace) || (network && o.Done?))
      ensures mountNamespace == (old(mountNamespace) || (mount && o.Done?))
    {
      o := Call();
      if o.Done? {
        userNamespace := userNamespace || user;
        networkNamespace := networkNamespace || network;
        mountNamespace := mountNamespace || mount;
      }
    }

    /** The kernel takes the maps of a user namespace just made, and the group map only once `setgroups` is denied. */
    method DenySetgroups() returns (o: Outcome)
      requires userNamespace
      modifies this`calls, this`setgroupsDenied
      ensures exists k :: o == answer(k)
      ensures setgroupsDenied == (old(setgroupsDenied) || o.Done?)
    {
      o := Call();
      setgroupsDenied := setgroupsDenied || o.Done?;
    }

    method WriteUidMap() returns (o: Outcome)
      requires userNamespace
      modifies this`calls, this`uidMapped
      ensures exists k :: o == answer(k)
      ensures uidMapped == (old(uidMapped) || o.Done?)
    {
      o := Call();
      uidMapped := uidMapped || o.Done?;
    }

    method WriteGidMap() returns (o: Outcome)
      requires userNamespace && setgroupsDenied
      modifies this`calls, this`gidMapped
      ensures exists k :: o == answer(k)
      ensures gidMapped == (old(gidMapped) || o.Done?)
    {
      o := Call();
      gidMapped := gidMapped || o.Done?;
    }

    /** `setgroups` denied, then the two maps, stopping at the first failure. */
    method WriteIdentityMaps() returns (o: Outcome)
      requires userNamespace
      modifies this`calls, this`setgroupsDenied, this`uidMapped, this`gidMapped
      ensures exists k :: o == answer(k)
      ensures o.Done? ==> MapsWritten()
    {
      o := DenySetgroups();
      if !o.Done? {
        return;
      }
      o := WriteUidMap();
      if !o.Done? {
        return;
      }
      o := WriteGidMap();
    }

    /**
     One mount call. It needs the capabilities still held, and turns into a read-only remount only a bind already made.
     */
    method Mount(privately: bool, remount: bool) returns (o: Outcome)
      requires mountNamespace && !setsCleared && (remount ==> bound) && (!privately ==> propagationPrivate)
      modifies this`calls, this`propagationPrivate, this`bound, this`readOnly
      ensures exists k :: o == answer(k)
      ensures propagationPrivate == (old(propagationPrivate) || (o.Done? && privately))
      ensures bound == (old(bound) || (o.Done? && !privately && !remount))
      ensures readOnly == (old(readOnly) || (o.Done? && !privately && remount))
    {
      o := Call();
      if o.Done? {
        propagationPrivate := propagationPrivate || privately;
        bound := bound || (!privately && !remount);
        readOnly := readOnly || (!privately && remount);
      }
    }

    /** A fresh lookup of the directory: it lands on the read-only bind only once that is made. */
    method Enter() returns (o: Outcome)
      modifies this`calls, this`entered
      ensures exists k :: o == answer(k)
      ensures entered == (old(entered) || (o.Done? && readOnly))
    {
      o := Call();
      entered := entered || (o.Done? && readOnly);
    }

    /** The locked flags read, propagation made private, the bind, its read-only remount, and the re-entry. */
    method BindReadOnly() returns (o: Outcome)
      requires mountNamespace && !setsCleared
      modifies this`calls, this`propagationPrivate, this`bound, this`readOnly, this`entered
      ensures exists k :: o == answer(k)
      ensures o.Done? ==> BoundReadOnly()
    {
      o := Call();
      if !o.Done? {
        return;
      }
      o := Mount(true, false);
      if !o.Done? {
        return;
      }
      o := Mount(false, false);
      if !o.Done? {
        return;
      }
      o := Mount(false, true);
      if !o.Done? {
        return;
      }
      o := Enter();
    }

    /** One step of the drop: nothing, or the text naming it. */
    method DropStep(step: string) returns (failure: Option<string>)
      requires NoBreaks(step)
      modifies this`calls
      ensures failure.Some? ==> FromAnswer(answer, failure.value)
    {
      ghost var k := calls;
      var o := Call();
      if o.Done? {
        return None;
      }
      failure := Some(DropPrefix() + step + o.detail);
      assert Drops(failure.value, answer(k).detail);
    }

    /** One capability out of the bounding set, which takes a capability still held. */
    method DropBounding(cap: nat) returns (failure: Option<string>)
      requires !setsCleared
      modifies this`calls, this`bounding
      ensures failure.Some? ==> FromAnswer(answer, failure.value)
      ensures bounding == old(bounding) + if failure.None? then {cap} else {}
    {
      BoundingStep(cap);
      failure := DropStep("prctl(PR_CAPBSET_DROP, " + Decimal.Print(cap) + "): ");
      if failure.None? {
        bounding := bounding + {cap};
      }
    }

    /** The whole drop, the live sets last; nothing, or the text naming the step that failed. */
    method DropCapabilities() returns (failure: Option<string>)
      requires !setsCleared
      modifies this`calls, this`ambientCleared, this`secureBits, this`noNewPrivs, this`bounding, this`setsCleared
      ensures failure.None? ==> Dropped()
      ensures failure.Some? ==> FromAnswer(answer, failure.value)
    {
      StepNames();
      ControlNames();
      PrivilegeName();
      hide FromAnswer, NoBreaks, Decimal.Print;
      failure := DropStep("");
      if failure.Some? {
        return;
      }
      failure := DropStep("cap_last_cap: ");
      if failure.Some? {
        return;
      }
      failure := DropStep("prctl(PR_CAP_AMBIENT_CLEAR_ALL): ");
      if failure.Some? {
        return;
      }
      ambientCleared := true;
      failure := DropStep("prctl(PR_SET_SECUREBITS): ");
      if failure.Some? {
        return;
      }
      secureBits := true;
      failure := DropStep("prctl(PR_SET_NO_NEW_PRIVS): ");
      if failure.Some? {
        return;
      }
      noNewPrivs := true;
      for cap := 0 to lastCap + 1
        invariant !setsCleared && ambientCleared && secureBits && noNewPrivs && forall c :: 0 <= c < cap ==>
          c in bounding
      {
        failure := DropBounding(cap);
        if failure.Some? {
          return;
        }
      }
      failure := DropStep("capset: ");
      if failure.Some? {
        return;
      }
      setsCleared := true;
    }

    method Fail(name: string, text: string)
      modifies this`problems, this`failed
      ensures problems == old(problems) + [(name, text)] && failed == old(failed) + {name}
    {
      problems := problems + [(name, text)];
      failed := failed + {name};
    }

    /** Every requested guarantee still standing is named with the one reason. */
    method FailStanding(requested: seq<string>, text: string)
      requires Named(problems, failed) && Texts(problems, answer) && FromAnswer(answer, text)
      modifies this`problems, this`failed
      ensures Named(problems, failed) && Texts(problems, answer)
      ensures failed == old(failed) + SetOf(requested)
    {
      for i := 0 to |requested|
        invariant Named(problems, failed) && Texts(problems, answer)
        invariant failed == old(failed) + SetOf(requested[..i])
      {
        assert requested[..i + 1] == requested[..i] + [requested[i]];
        if requested[i] !in failed {
          FailOne(requested[i], text);
        }
      }
      assert requested[..|requested|] == requested;
    }

    method FailOne(name: string, text: string)
      requires Named(problems, failed) && Texts(problems, answer) && FromAnswer(answer, text)
      modifies this`problems, this`failed
      ensures Named(problems, failed) && Texts(problems, answer) && failed == old(failed) + {name}
      ensures problems == old(problems) + [(name, text)]
    {
      ghost var before := problems;
      Fail(name, text);
      forall l | l in failed
        ensures exists i :: 0 <= i < |problems| && problems[i].0 == l
      {
        if l in old(failed) {
          var i :| 0 <= i < |before| && before[i].0 == l;
          assert problems[i].0 == l;
        } else {
          assert problems[|before|].0 == l;
        }
      }
    }

    /** The namespaces: all in one call, and where that is refused and two are asked for, each on its own. */
    method Namespaces(network: bool, readonly: bool) returns (raised: Option<string>)
      requires problems == [] && failed == {} && !userNamespace && !networkNamespace && !mountNamespace
        && (network || readonly)
      modifies this`calls, this`userNamespace, this`networkNamespace, this`mountNamespace, this`problems, this`failed
      ensures Named(problems, failed) && Texts(problems, answer)
      ensures failed <= SetOf(Requested(network, readonly))
      ensures raised.Some? ==> FromAnswer(answer, raised.value)
      ensures raised.None? ==> MadeFor(network, readonly, failed)
      ensures raised.None? && !userNamespace ==> forall l :: l in Requested(network, readonly) ==> l in failed
      ensures AllRefused(answer) ==> raised.None? && !userNamespace && OwnTexts(problems, answer)
    {
      hide OwnTexts, AllRefused, Named, Texts, FromAnswer, Network, ReadOnly;
      raised := None;
      NoProblems(problems, failed);
      AskedFor(network, readonly);
      var combined := Unshare(true, network, readonly);
      AnswerIs(combined);
      if combined.Done? {
        return;
      }
      if combined.Raised? {
        return Some(combined.detail);
      }
      if network && readonly {
        raised := Apart();
      } else {
        var only := if network then Network() else ReadOnly();
        OwnTextsNext(problems, answer, only, combined);
        FailOne(only, combined.detail);
      }
    }

    /** Where the one call is refused: each namespace asked for on its own. */
    method Apart() returns (raised: Option<string>)
      requires problems == [] && failed == {} && !userNamespace && !networkNamespace && !mountNamespace
      modifies this`calls, this`userNamespace, this`networkNamespace, this`mountNamespace, this`problems, this`failed
      ensures Named(problems, failed) && Texts(problems, answer) && failed <= {Network(), ReadOnly()}
      ensures raised.Some? ==> FromAnswer(answer, raised.value)
      ensures raised.None? ==> (Network() in failed || networkNamespace) && (ReadOnly() in failed || mountNamespace)
      ensures raised.None? && !userNamespace ==> Network() in failed && ReadOnly() in failed
      ensures AllRefused(answer) ==> raised.None? && !userNamespace && OwnTexts(problems, answer)
    {
      LabelsDiffer();
      hide OwnTexts, AllRefused, Named, Texts, FromAnswer, Network, ReadOnly;
      NoProblems(problems, failed);
      var first := Unshare(true, true, false);
      AnswerIs(first);
      if !first.Done? {
        if first.Raised? {
          return Some(first.detail);
        }
        OwnTextsNext(problems, answer, Network(), first);
        FailOne(Network(), first.detail);
      }
      var second := Unshare(!userNamespace, false, true);
      AnswerIs(second);
      if !second.Done? {
        if second.Raised? {
          return Some(second.detail);
        }
        OwnTextsNext(problems, answer, ReadOnly(), second);
        FailOne(ReadOnly(), second.detail);
      }
      raised := None;
    }

    lemma NoProblems(problems: Problems, failed: set<string>)
      requires problems == [] && failed == {}
      ensures Named(problems, failed) && Texts(problems, answer) && OwnTexts(problems, answer)
    {
    }

    /** The read-only bind, where it is asked for and still standing. */
    method BindStanding(readonly: bool) returns (raised: Option<string>)
      requires Named(problems, failed) && Texts(problems, answer)
      requires !setsCleared && (readonly && ReadOnly() !in failed ==> mountNamespace)
      modifies this`calls, this`propagationPrivate, this`bound, this`readOnly, this`entered, this`problems, this`failed
      ensures Named(problems, failed) && Texts(problems, answer)
      ensures old(failed) <= failed <= old(failed) + if readonly then {ReadOnly()} else {}
      ensures raised.Some? ==> FromAnswer(answer, raised.value)
      ensures raised.None? && readonly && ReadOnly() !in failed ==> BoundReadOnly()
    {
      hide Named, Texts;
      raised := None;
      if readonly && ReadOnly() !in failed {
        var bind := BindReadOnly();
        match bind
        case Raised(detail) => raised := Some(detail);
        case OsError(detail) => FailOne(ReadOnly(), detail);
        case Done =>
      }
    }

    /** With a user namespace made: the maps, the read-only bind, and last the capability drop. */
    method Confine(network: bool, readonly: bool) returns (raised: Option<string>)
      requires Named(problems, failed) && Texts(problems, answer) && failed <= SetOf(Requested(network, readonly))
      requires userNamespace && !setsCleared && MadeFor(network, readonly, failed)
      modifies this`calls, this`setgroupsDenied, this`uidMapped, this`gidMapped, this`propagationPrivate, this`bound,
        this`readOnly,
        this`entered, this`ambientCleared, this`secureBits, this`noNewPrivs, this`bounding, this`setsCleared,
          this`problems, this`failed
      ensures Named(problems, failed) && Texts(problems, answer)
      ensures failed <= SetOf(Requested(network, readonly))
      ensures raised.Some? ==> FromAnswer(answer, raised.value)
      ensures raised.None? ==> forall l :: l in Requested(network, readonly) && l !in failed ==> Enforced(l)
    {
      hide Named, Texts, FromAnswer, Requested, Network, ReadOnly, Child.MapsWritten, Child.Dropped,
        Child.BoundReadOnly, Child.Enforced, Child.MadeFor;
      raised := None;
      var maps := WriteIdentityMaps();
      if !maps.Done? {
        AnswerIs(maps);
        if maps.Raised? {
          return Some(maps.detail);
        }
        FailStanding(Requested(network, readonly), maps.detail);
        return;
      }
      MountMade(network, readonly);
      AskedFor(network, readonly);
      raised := BindStanding(readonly);
      if raised.Some? {
        return;
      }
      var failure := DropCapabilities();
      if failure.Some? {
        FailStanding(Requested(network, readonly), failure.value);
      } else {
        AllEnforced(network, readonly, old(failed));
      }
    }

    lemma AllEnforced(network: bool, readonly: bool, before: set<string>)
      requires userNamespace && MapsWritten() && Dropped() && (readonly && ReadOnly() !in failed ==> BoundReadOnly())
      requires MadeFor(network, readonly, before) && before <= failed
      ensures forall l :: l in Requested(network, readonly) && l !in failed ==> Enforced(l)
    {
      AskedFor(network, readonly);
      hide MapsWritten, Dropped, BoundReadOnly, Requested, Network, ReadOnly;
    }

    lemma AnswerIs(o: Outcome)
      requires exists k :: o == answer(k)
      ensures !o.Done? ==> FromAnswer(answer, o.detail)
      ensures AllRefused(answer) ==> o.OsError?
    {
    }

    lemma AskedFor(network: bool, readonly: bool)
      ensures readonly <==> ReadOnly() in Requested(network, readonly)
      ensures network <==> Network() in Requested(network, readonly)
      ensures forall l :: l in Requested(network, readonly) ==> l == Network() || l == ReadOnly()
    {
      LabelsDiffer();
    }

    /** The guarded setup: whatever is raised out of the steps names every guarantee still standing. */
    method Setup(network: bool, readonly: bool)
      requires problems == [] && failed == {} && !userNamespace && !networkNamespace && !mountNamespace && !setsCleared
        && (network || readonly)
      modifies this
      ensures Named(problems, failed) && Texts(problems, answer)
      ensures failed <= SetOf(Requested(network, readonly))
      ensures forall l :: l in Requested(network, readonly) && l !in failed ==> Enforced(l)
      ensures AllRefused(answer) ==> !userNamespace && OwnTexts(problems, answer)
    {
      hide Named, Texts, FromAnswer, AllRefused, OwnTexts;
      var raised := Namespaces(network, readonly);
      if raised.None? && userNamespace {
        raised := Confine(network, readonly);
      }
      if raised.Some? {
        FailStanding(Requested(network, readonly), raised.value);
      }
    }
  }
}
