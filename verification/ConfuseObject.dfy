/** A configuration option as the object its functions change in place. */
module ConfuseObjects {
  import opened Wrappers
  import opened ConfuseOptions

  class CfgOpt {
    const name: string
    const kind: Kind
    const list: bool
    const multi: bool
    const titled: bool
    const noTitleDupes: bool
    const subopts: seq<Opt>
    var reset: bool
    var values: seq<Value>
    ghost var calls: seq<seq<string>>

    ghost function Now(): Opt
      reads this
    {
      Opt(name, kind, list, multi, titled, noTitleDupes, reset, values, subopts, calls)
    }

    constructor (opt: Opt)
      ensures Now() == opt
    {
      name, kind, list, multi := opt.name, opt.kind, opt.list, opt.multi;
      titled, noTitleDupes, subopts := opt.titled, opt.noTitleDupes, opt.subopts;
      reset, values, calls := opt.reset, opt.values, opt.calls;
    }

    method FreeValue()
      modifies this`values
      ensures Now() == old(Now()).(values := [])
    {
      values := [];
    }

    method AddVal() returns (index: nat)
      modifies this`values
      ensures index == |old(values)| && Now() == Added(old(Now()))
    {
      index := |values|;
      values := values + [Blank];
    }

    /** The loop over the titles; the result is the number of sections when none matches. */
    method FindSection(title: string) returns (index: nat)
      ensures index == FindTitle(values, title)
    {
      index := 0;
      while index < |values| && !(values[index].Sec? && values[index].title == Some(title))
        invariant index <= |values|
        invariant FindTitle(values, title) == index + FindTitle(values[index..], title)
      {
        assert values[index..][1..] == values[index + 1..];
        index := index + 1;
      }
    }

    method SetOpt(value: Option<string>) returns (index: Option<nat>)
      modifies this`values, this`reset
      ensures var r := ConfuseOptions.SetOpt(old(Now()), value);
              Now() == r.opt && index == if r.Done? then Some(r.index) else None
      ensures index.Some? ==> index.value < |values|
    {
      hide FindTitle, Convert;
      if reset {
        FreeValue();
        reset := false;
      }
      assert Now() == Freed(old(Now()));
      ghost var freed := Now();
      var i: nat := 0;
      if |values| == 0 || multi || list {
        i := |values|;
        if kind.Section? && titled {
          if |values| != 0 && value.None? {
            return None;
          }
          if |values| != 0 {
            i := FindSection(value.value);
          }
          if i < |values| && noTitleDupes {
            return None;
          }
        }
        if i == |values| {
          i := AddVal();
        }
      }
      var stored := StoreAt(i, value);
      return if stored then Some(i) else None;
    }

    /** The switch over the option's type. */
    method StoreAt(i: nat, value: Option<string>) returns (stored: bool)
      requires i < |values|
      modifies this`values
      ensures Now() == Store(old(Now()), i, value).opt && |values| == |old(values)|
      ensures stored == Store(old(Now()), i, value).Done? && (stored ==> Store(old(Now()), i, value).index == i)
    {
      match kind
      case Text =>
        if value.None? {
          return false;
        }
        values := values[i := Str(value.value)];
        return true;
      case Boolean =>
        if value.None? {
          return false;
        }
        var b := ParseBoolean(value.value);
        if b.None? {
          return false;
        }
        values := values[i := Bool(b.value)];
        return true;
      case Section =>
        if multi || values[i].Blank? {
          values := values[i := Sec(value, subopts)];
        }
        return true;
      case Function(_) =>
        return false;
    }

    /** Sets all the values, or puts the old ones back. */
    method SetMulti(args: seq<string>) returns (ok: bool)
      modifies this`values, this`reset
      ensures Now() == ConfuseOptions.SetMulti(old(Now()), args).opt
      ensures ok == ConfuseOptions.SetMulti(old(Now()), args).ok
    {
      hide ConfuseOptions.SetOpt;
      if args == [] {
        return false;
      }
      var saved := values;
      values := [];
      ghost var start := Now();
      assert start == old(Now()).(values := []);
      var i := 0;
      while i < |args|
        invariant 0 <= i <= |args|
        invariant SetAll(start, args) == SetAll(Now(), args[i..])
      {
        ghost var before := Now();
        assert args[i..][1..] == args[i + 1..];
        var index := SetOpt(Some(args[i]));
        if index.None? {
          assert SetAll(before, args[i..]) == Refused(Now());
          FreeValue();
          values := saved;
          return false;
        }
        i := i + 1;
      }
      return true;
    }

    method GetTSec(title: string) returns (index: Option<nat>)
      ensures index == LookUp(values, title)
    {
      var i: nat := 0;
      while i < |values|
        invariant i <= |values|
        invariant var rest := LookUp(values[i..], title);
                  LookUp(values, title) == if rest.None? then None else Some(i + rest.value)
      {
        assert values[i..][1..] == values[i + 1..];
        if !IsSection(values[i]) {
          return None;
        }
        if values[i].title.value == title {
          return Some(i);
        }
        i := i + 1;
      }
      return None;
    }

    method AddTSec(title: string) returns (index: Option<nat>)
      modifies this`values, this`reset
      ensures var r := ConfuseOptions.AddTSec(old(Now()), title);
              Now() == r.opt && index == if r.Done? then Some(r.index) else None
    {
      if titled {
        var there := GetTSec(title);
        if there.Some? {
          return None;
        }
      }
      index := SetOpt(Some(title));
    }

    method RmNSec(index: nat) returns (ok: bool)
      requires !reset
      modifies this`values
      ensures Now() == ConfuseOptions.RmNSec(old(Now()), index).opt
      ensures ok == ConfuseOptions.RmNSec(old(Now()), index).ok
    {
      if !kind.Section? || index >= |values| || (index != 0 && !list && !multi) {
        return false;
      }
      if index + 1 != |values| {
        // the tail moves one place down
        var n := index;
        ghost var was := values;
        while n + 1 < |values|
          invariant index <= n < |values| == |was|
          invariant values[..index] == was[..index]
          invariant forall k :: index <= k < n ==> values[k] == was[k + 1]
          invariant forall k :: n < k < |values| ==> values[k] == was[k]
        {
          values := values[n := values[n + 1]];
          n := n + 1;
        }
        assert values[..|values| - 1] == was[..index] + was[index + 1..];
      }
      values := values[..|values| - 1];
      return true;
    }

    method RmTSec(title: string) returns (ok: bool)
      requires !reset
      modifies this`values
      ensures Now() == ConfuseOptions.RmTSec(old(Now()), title).opt
      ensures ok == ConfuseOptions.RmTSec(old(Now()), title).ok
    {
      if !titled {
        return false;
      }
      var index := GetTSec(title);
      if index.None? {
        return false;
      }
      ok := RmNSec(index.value);
    }
  }
}
