/** command_line.cpp as functions: what each argument does to the options, the
    single parameters and the option that takes the next values. */
module CommandLineModel {
  import opened Sequences
  import opened Wrappers
  import opened ReturnCodes
  import opened StringSplit

  datatype OptionValue = OptionValue(least: nat, fixed: bool, specified: bool, values: seq<string>)

  /** By short name. */
  type Options = map<string, OptionValue>

  /** Long names to short names. */
  type Relations = map<string, string>

  /** current: the option the next value goes to. */
  datatype ParseState = ParseState(options: Options, single: seq<string>, current: Option<string>)

  predicate IsLetter(c: char) {
    'a' <= c <= 'z' || 'A' <= c <= 'Z'
  }

  /** The short name get_option_value resolves a name to: long names win. */
  function Target(options: Options, relations: Relations, name: string): Option<string> {
    var short := if name in relations then relations[name] else name;
    if short in options then Some(short) else None
  }

  /** SET_IS_SPECIFIED: the first mention of an option drops its default values. */
  function Specify(s: ParseState, relations: Relations, name: string): (ParseState, int) {
    match Target(s.options, relations, name)
    case None => (s, UNKNOWN_CMD_LINE_OPTION)
    case Some(short) =>
      var v := s.options[short];
      if v.specified then (s, CA_RET_OK)
      else (s.(options := s.options[short := v.(specified := true, values := [])]), CA_RET_OK)
  }

  /** add_value. */
  function AddValue(s: ParseState, option: Option<string>, value: string): (ParseState, int) {
    match option
    case None => (s.(single := s.single + [value]), CA_RET_OK)
    case Some(short) =>
      if short !in s.options then (s, UNKNOWN_CMD_LINE_OPTION)
      else
        var v := s.options[short];
        if v.fixed && |v.values| >= v.least then (s, EXCESS_OBJECT_COUNT)
        else (s.(options := s.options[short := v.(values := v.values + [value])]), CA_RET_OK)
  }

  /** ADD_VALUE: a value too many closes the option and becomes a single parameter. */
  function PlaceValue(s: ParseState, value: string): (ParseState, int) {
    var r := AddValue(s, s.current, value);
    if r.1 == EXCESS_OBJECT_COUNT then AddValue(s.(current := None), None, value) else r
  }

  function SpecifyAll(s: ParseState, relations: Relations, letters: string): (ParseState, int)
    decreases |letters|
  {
    if letters == "" then (s, CA_RET_OK)
    else
      var r := Specify(s, relations, letters[..1]);
      if r.1 != CA_RET_OK then r else SpecifyAll(r.0, relations, letters[1..])
  }

  /** Values given with '=': those that do not fit are dropped. */
  function AddAll(s: ParseState, short: string, values: seq<string>): ParseState
    decreases |values|
  {
    if values == [] then s else AddAll(AddValue(s, Some(short), values[0]).0, short, values[1..])
  }

  function TakeLong(s: ParseState, relations: Relations, text: string): (ParseState, int) {
    var eq := IndexOf(text, '=');
    if eq < |text| && (eq == 0 || eq == |text| - 1) then (s, INVALID_CMD_LINE_FORMAT)
    else if text[..eq] !in relations then (s, UNKNOWN_CMD_LINE_OPTION)
    else
      var short := relations[text[..eq]];
      var r := Specify(s.(current := Some(short)), relations, short);
      if r.1 != CA_RET_OK || eq == |text| then r
      else (AddAll(r.0, short, Split(text[eq + 1..], '|')), CA_RET_OK)
  }

  /** A positional token: the value of an option, or a single parameter. */
  predicate IsValue(arg: string) {
    |arg| == 1 || (|arg| > 1 && (arg[0] != '-' || (arg[1] != '-' && !IsLetter(arg[1]))))
  }

  /** Of "-5" only the digit is stored, but "-12" as it is. */
  function Stored(arg: string): string
    requires IsValue(arg)
  {
    if |arg| == 2 && arg[0] == '-' then arg[1..] else arg
  }

  /** One round of the loop in parse. */
  function Take(s: ParseState, relations: Relations, arg: string): (ParseState, int) {
    if arg == "" || arg == "--" then (s, CA_RET_OK)
    else if IsValue(arg) then PlaceValue(s, Stored(arg))
    else if |arg| == 2 then Specify(s.(current := Some(arg[1..])), relations, arg[1..])
    else if arg[1] != '-' then
      var r := SpecifyAll(s, relations, arg[1..]);
      if r.1 != CA_RET_OK then r else (r.0.(current := Some(arg[|arg| - 1..])), CA_RET_OK)
    else TakeLong(s, relations, arg[2..])
  }

  function TakeAll(s: ParseState, relations: Relations, args: seq<string>): (ParseState, int)
    decreases |args|
  {
    if args == [] then (s, CA_RET_OK)
    else
      var r := Take(s, relations, args[0]);
      if r.1 != CA_RET_OK then r else TakeAll(r.0, relations, args[1..])
  }

  ghost predicate Sufficient(options: Options) {
    forall o | o in options :: options[o].specified ==> |options[o].values| >= options[o].least
  }

  // ----- what holds of every parse -----

  ghost predicate Bounded(options: Options) {
    forall o | o in options :: options[o].specified && options[o].fixed ==> |options[o].values| <= options[o].least
  }

  ghost predicate Ready(options: Options) {
    forall o | o in options :: !options[o].specified
  }

  /** s became r: options are the same ones, what was specified stays so and its
      values only grow at the end, and so do the single parameters. */
  ghost predicate Grows(s: ParseState, r: ParseState) {
    && r.options.Keys == s.options.Keys
    && s.single <= r.single
    && (Bounded(s.options) ==> Bounded(r.options))
    && forall o | o in s.options ::
         && r.options[o].least == s.options[o].least && r.options[o].fixed == s.options[o].fixed
         && (s.options[o].specified ==> r.options[o].specified && s.options[o].values <= r.options[o].values)
  }

  lemma GrowsTransitive(s: ParseState, m: ParseState, r: ParseState)
    requires Grows(s, m) && Grows(m, r)
    ensures Grows(s, r)
  {
  }

  lemma SpecifyGrows(s: ParseState, relations: Relations, name: string)
    ensures Grows(s, Specify(s, relations, name).0)
  {
  }

  lemma AddValueGrows(s: ParseState, option: Option<string>, value: string)
    ensures Grows(s, AddValue(s, option, value).0)
  {
  }

  lemma {:induction false} SpecifyAllGrows(s: ParseState, relations: Relations, letters: string)
    ensures Grows(s, SpecifyAll(s, relations, letters).0)
    decreases |letters|
  {
    hide Grows, Specify;
    SpecifyGrows(s, relations, "");
    if letters == "" {
      GrowsReflexive(s);
    } else {
      var m := Specify(s, relations, letters[..1]).0;
      SpecifyGrows(s, relations, letters[..1]);
      SpecifyAllGrows(m, relations, letters[1..]);
      GrowsTransitive(s, m, SpecifyAll(m, relations, letters[1..]).0);
    }
  }

  lemma GrowsReflexive(s: ParseState)
    ensures Grows(s, s)
  {
  }

  lemma {:induction false} AddAllGrows(s: ParseState, short: string, values: seq<string>)
    ensures Grows(s, AddAll(s, short, values))
    decreases |values|
  {
    hide Grows, AddValue;
    if values == [] {
      GrowsReflexive(s);
    } else {
      var m := AddValue(s, Some(short), values[0]).0;
      AddValueGrows(s, Some(short), values[0]);
      AddAllGrows(m, short, values[1..]);
      GrowsTransitive(s, m, AddAll(m, short, values[1..]));
    }
  }

  lemma CurrentDoesNotMatter(s: ParseState, r: ParseState, current: Option<string>)
    ensures Grows(s.(current := current), r) <==> Grows(s, r)
    ensures Grows(s, r.(current := current)) <==> Grows(s, r)
  {
  }

  lemma TakeLongGrows(s: ParseState, relations: Relations, text: string)
    ensures Grows(s, TakeLong(s, relations, text).0)
  {
    hide Grows, Specify, AddAll;
    GrowsReflexive(s);
    var eq := IndexOf(text, '=');
    if text[..eq] in relations {
      var short := relations[text[..eq]];
      var s' := s.(current := Some(short));
      var m := Specify(s', relations, short).0;
      SpecifyGrows(s', relations, short);
      CurrentDoesNotMatter(s, m, Some(short));
      if eq < |text| {
        var values := Split(text[eq + 1..], '|');
        AddAllGrows(m, short, values);
        GrowsTransitive(s, m, AddAll(m, short, values));
      }
    }
  }

  lemma TakeGrows(s: ParseState, relations: Relations, arg: string)
    ensures Grows(s, Take(s, relations, arg).0)
  {
    hide Grows, Specify, AddValue, SpecifyAll, TakeLong;
    GrowsReflexive(s);
    if IsValue(arg) {
      AddValueGrows(s, s.current, Stored(arg));
      AddValueGrows(s.(current := None), None, Stored(arg));
      CurrentDoesNotMatter(s, AddValue(s.(current := None), None, Stored(arg)).0, None);
    } else if |arg| == 2 {
      var r := Specify(s.(current := Some(arg[1..])), relations, arg[1..]).0;
      SpecifyGrows(s.(current := Some(arg[1..])), relations, arg[1..]);
      CurrentDoesNotMatter(s, r, Some(arg[1..]));
    } else if |arg| > 2 {
      var r := SpecifyAll(s, relations, arg[1..]).0;
      SpecifyAllGrows(s, relations, arg[1..]);
      CurrentDoesNotMatter(s, r, Some(arg[|arg| - 1..]));
      TakeLongGrows(s, relations, arg[2..]);
    }
  }

  lemma {:induction false} TakeAllGrows(s: ParseState, relations: Relations, args: seq<string>)
    ensures Grows(s, TakeAll(s, relations, args).0)
    decreases |args|
  {
    hide Grows, Take;
    GrowsReflexive(s);
    if args != [] {
      var m := Take(s, relations, args[0]).0;
      TakeGrows(s, relations, args[0]);
      TakeAllGrows(m, relations, args[1..]);
      GrowsTransitive(s, m, TakeAll(m, relations, args[1..]).0);
    }
  }

  /** After a parse that succeeds every specified option has its values: exactly
      so many if the count is fixed, at least so many if not. */
  lemma ParsedCounts(options: Options, relations: Relations, single: seq<string>, args: seq<string>)
    requires Ready(options)
    ensures var r := TakeAll(ParseState(options, single, None), relations, args).0.options;
            Sufficient(r) ==>
              forall o | o in r :: r[o].specified ==>
                if r[o].fixed then |r[o].values| == r[o].least else |r[o].values| >= r[o].least
  {
    TakeAllGrows(ParseState(options, single, None), relations, args);
  }

  // ----- a run of positional tokens -----

  ghost predicate AllValues(run: seq<string>) {
    forall arg | arg in run :: IsValue(arg)
  }

  function StoredAll(run: seq<string>): (r: seq<string>)
    requires AllValues(run)
    ensures |r| == |run| && forall i | 0 <= i < |r| :: r[i] == Stored(run[i])
  {
    if run == [] then [] else [Stored(run[0])] + StoredAll(run[1..])
  }

  /** How many of n more values an option takes. */
  function Fits(v: OptionValue, n: nat): (k: nat)
    ensures k <= n
  {
    if !v.fixed then n
    else
      var room := if v.least > |v.values| then v.least - |v.values| else 0;
      if n < room then n else room
  }

  /** How many of n values go to the current option. */
  function Share(s: ParseState, n: nat): (k: nat)
    requires s.current.Some? ==> s.current.value in s.options
    ensures k <= n
  {
    if s.current.None? then 0 else Fits(s.options[s.current.value], n)
  }

  /** A prefix of the values goes to the current option, the rest to the single
      parameters; once one did, the option is closed. */
  function Distributed(s: ParseState, values: seq<string>): ParseState
    requires s.current.Some? ==> s.current.value in s.options
  {
    var k := Share(s, |values|);
    ParseState(
      if s.current.None? then s.options else
        var v := s.options[s.current.value];
        s.options[s.current.value := v.(values := v.values + values[..k])],
      s.single + values[k..],
      if k < |values| then None else s.current)
  }

  lemma {:induction false} RunIsDistributed(s: ParseState, relations: Relations, run: seq<string>)
    requires AllValues(run) && (s.current.Some? ==> s.current.value in s.options)
    ensures TakeAll(s, relations, run) == (Distributed(s, StoredAll(run)), CA_RET_OK)
    decreases |run|
  {
    hide Distributed, PlaceValue;
    var values := StoredAll(run);
    if run == [] {
      DistributeNone(s);
    } else {
      PlaceIsDistributed(s, values[0]);
      assert [values[0]] == values[..1];
      DistributeOneThenRest(s, values);
      RunIsDistributed(Distributed(s, values[..1]), relations, run[1..]);
      assert StoredAll(run[1..]) == values[1..];
      TakesValue(s, relations, run[0]);
    }
  }

  lemma TakesValue(s: ParseState, relations: Relations, arg: string)
    requires IsValue(arg)
    ensures Take(s, relations, arg) == PlaceValue(s, Stored(arg))
  {
  }

  lemma DistributeNone(s: ParseState)
    requires s.current.Some? ==> s.current.value in s.options
    ensures Distributed(s, []) == s
  {
    if s.current.Some? {
      var v := s.options[s.current.value];
      assert v.values + [] == v.values;
    }
    assert s.single + [] == s.single;
  }

  lemma PlaceIsDistributed(s: ParseState, value: string)
    requires s.current.Some? ==> s.current.value in s.options
    ensures PlaceValue(s, value) == (Distributed(s, [value]), CA_RET_OK)
  {
    assert [value][..0] == [] && [value][1..] == [] && [value][0..] == [value] && [value][..1] == [value];
    assert s.single + [] == s.single;
    if s.current.Some? {
      var v := s.options[s.current.value];
      assert v.values + [] == v.values;
      assert s.options == s.options[s.current.value := v];
    }
  }

  lemma DistributeOneThenRest(s: ParseState, values: seq<string>)
    requires values != [] && (s.current.Some? ==> s.current.value in s.options)
    ensures var m := Distributed(s, values[..1]);
            (m.current.Some? ==> m.current.value in m.options) && Distributed(m, values[1..]) == Distributed(s, values)
  {
    var m := Distributed(s, values[..1]);
    var k, k1, k2 := Share(s, |values|), Share(s, 1), Share(m, |values| - 1);
    assert k == k1 + k2;
    assert values[..1][..k1] + values[1..][..k2] == values[..k];
    assert values[..1][k1..] + values[1..][k2..] == values[k..];
    Assoc(s.single, values[..1][k1..], values[1..][k2..]);
    if s.current.Some? {
      Assoc(s.options[s.current.value].values, values[..1][..k1], values[1..][..k2]);
    }
  }

  /** A token that is neither an option nor a dash and one character. */
  predicate AsItIs(arg: string) {
    || |arg| == 1 || (|arg| > 1 && arg[0] != '-')
    || (|arg| > 2 && arg[1] != '-' && !('a' <= arg[1] <= 'z') && !('A' <= arg[1] <= 'Z'))
  }

  /** Tokens that are no dash with a single character behind it are stored as they
      are, in order: the first k go to the current option, which takes all of them or
      as many as its fixed count leaves room for, and the others to the single
      parameters. */
  lemma RunIsKept(s: ParseState, relations: Relations, run: seq<string>)
    requires s.current.Some? ==> s.current.value in s.options
    requires forall arg | arg in run :: AsItIs(arg)
    ensures var r, k := TakeAll(s, relations, run), Share(s, |run|);
            && r.1 == 0 && r.0.single == s.single + run[k..]
            && r.0.current == (if k < |run| then None else s.current)
            && if s.current.None? then k == 0 && r.0.options == s.options
               else
                 var o := s.current.value;
                 var v := s.options[o];
                 && r.0.options == s.options[o := v.(values := v.values + run[..k])]
                 && k == if !v.fixed || |v.values| + |run| <= v.least then |run|
                         else if |v.values| <= v.least then v.least - |v.values| else 0
  {
    RunIsDistributed(s, relations, run);
    StoredAsTheyAre(run);
  }

  /** A line without options, from the start. */
  lemma PlainLine(options: Options, relations: Relations, single: seq<string>, args: seq<string>)
    ensures (forall arg | arg in args :: AsItIs(arg)) ==>
              TakeAll(ParseState(options, single, None), relations, args) ==
              (ParseState(options, single + args, None), 0)
  {
    if forall arg | arg in args :: AsItIs(arg) {
      RunIsKept(ParseState(options, single, None), relations, args);
    }
  }

  lemma StoredAsTheyAre(run: seq<string>)
    requires AllValues(run) && forall arg | arg in run :: |arg| != 2 || arg[0] != '-'
    ensures StoredAll(run) == run
  {
  }

  /** Of a dash and one character that is neither a letter nor a dash, the character is stored. */
  lemma DashedCharacter(s: ParseState, relations: Relations, d: char)
    requires d != '-' && !('a' <= d <= 'z') && !('A' <= d <= 'Z')
    requires s.current.Some? ==> s.current.value in s.options
    ensures var r := Take(s, relations, ['-', d]);
            && r.1 == 0
            && if s.current.Some? && (var v := s.options[s.current.value]; !v.fixed || |v.values| < v.least) then
                 var v := s.options[s.current.value];
                 r.0 == s.(options := s.options[s.current.value := v.(values := v.values + [[d]])])
               else r.0 == s.(current := None, single := s.single + [[d]])
  {
    assert ['-', d][1..] == [d];
  }

  // ----- where the values of a parse end up -----

  /** No long name is taken for another option's short one. */
  ghost predicate NamesOwn(options: Options, relations: Relations) {
    && (forall n | n in relations :: relations[n] in options)
    && (forall n | n in relations :: if n in options then relations[n] == n else |n| != 1)
  }

  /** Learning an option keeps the names apart exactly when its short name is no
      other option's long name, and its long name is longer than a letter and no
      other option's short name, or the same as its own. */
  lemma LearningKeepsNamesOwn(options: Options, relations: Relations, short: string, long: string, v: OptionValue)
    requires NamesOwn(options, relations) && short !in options && long !in relations
    ensures NamesOwn(options[short := v], relations[long := short]) <==>
            short !in relations && (long == short || (long !in options && |long| != 1))
  {
    var o, r := options[short := v], relations[long := short];
    if short in relations {
      assert r[short] == relations[short] != short;
    } else {
      assert r[long] == short;
    }
  }

  ghost predicate CurrentOwned(s: ParseState) {
    s.current.Some? ==> s.current.value in s.options && s.options[s.current.value].specified
  }

  /** A short option becomes the current one and a specified one exactly when it
      exists and is not the long name of another option. */
  lemma ShortOptionIsOwn(s: ParseState, relations: Relations, c: char)
    requires IsLetter(c)
    ensures var r := Take(s, relations, ['-', c]);
            var name := [c];
            r.1 == CA_RET_OK ==>
              && r.0.current == Some(name)
              && (CurrentOwned(r.0) <==>
                  name in s.options && (s.options[name].specified || name !in relations || relations[name] == name))
  {
    assert ['-', c][1..] == [c];
  }

  /** The option after one more mention. */
  function Mentioned(v: OptionValue): OptionValue {
    if v.specified then v else v.(specified := true, values := [])
  }

  /** The options after each of these letters was mentioned. */
  function AfterLetters(options: Options, letters: string): Options {
    map o | o in options :: if |o| == 1 && o[0] in letters then Mentioned(options[o]) else options[o]
  }

  lemma OneLetterMore(options: Options, c: char, letters: string)
    requires [c] in options
    ensures AfterLetters(options[[c] := Mentioned(options[[c]])], letters) == AfterLetters(options, [c] + letters)
  {
    forall o | o in options
      ensures AfterLetters(options[[c] := Mentioned(options[[c]])], letters)[o] ==
              AfterLetters(options, [c] + letters)[o]
    {
      assert |o| == 1 ==> (o[0] in [c] + letters <==> o == [c] || o[0] in letters);
    }
  }

  /** A cluster is accepted exactly when every letter is an option, and then it
      mentions exactly those options. */
  lemma {:induction false} ClusterMentionsEachLetter(s: ParseState, relations: Relations, letters: string)
    requires NamesOwn(s.options, relations)
    ensures var r := SpecifyAll(s, relations, letters);
            && (r.1 == CA_RET_OK <==> forall c | c in letters :: [c] in s.options)
            && (r.1 == CA_RET_OK ==> r.0 == s.(options := AfterLetters(s.options, letters)))
    decreases |letters|
  {
    if letters == "" {
      assert AfterLetters(s.options, "") == s.options;
    } else {
      var c := letters[0];
      assert letters == [c] + letters[1..] && letters[..1] == [c];
      if [c] in s.options {
        hide AfterLetters;
        var m := Specify(s, relations, [c]).0;
        assert m == s.(options := s.options[[c] := Mentioned(s.options[[c]])]);
        OneLetterMore(s.options, c, letters[1..]);
        ClusterMentionsEachLetter(m, relations, letters[1..]);
      } else {
        assert c in letters;
      }
    }
  }

  lemma {:induction false} AddAllTakesPrefix(s: ParseState, short: string, values: seq<string>)
    requires short in s.options
    ensures var v := s.options[short];
            AddAll(s, short, values) ==
            s.(options := s.options[short := v.(values := v.values + values[..Fits(v, |values|)])])
    decreases |values|
  {
    var v := s.options[short];
    if values == [] {
      assert v.values + [] == v.values && s.options[short := v] == s.options;
    } else {
      var m := AddValue(s, Some(short), values[0]).0;
      AddAllTakesPrefix(m, short, values[1..]);
      var k := Fits(v, |values|);
      if k == 0 {
        assert values[1..][..0] == values[..0];
      } else {
        assert values[..k] == [values[0]] + values[1..][..k - 1];
        Assoc(v.values, [values[0]], values[1..][..k - 1]);
      }
    }
  }

  /** The state after an option was mentioned: it is the current one. At its first
      mention it is specified and loses its default values; nothing else changes. */
  ghost predicate MentionedIn(s: ParseState, short: string, r: ParseState) {
    && short in s.options && r.single == s.single && r.current == Some(short)
    && r.options.Keys == s.options.Keys && (forall o | o in s.options && o != short :: r.options[o] == s.options[o])
    && r.options[short].specified
    && r.options[short].least == s.options[short].least && r.options[short].fixed == s.options[short].fixed
    && r.options[short].values == if s.options[short].specified then s.options[short].values else []
  }

  /** -c for a letter c: with names kept apart it mentions the option of that name,
      and fails, changing no option and no parameter, exactly if there is none. */
  lemma ShortOptionMentions(s: ParseState, relations: Relations, c: char)
    requires NamesOwn(s.options, relations) && ('a' <= c <= 'z' || 'A' <= c <= 'Z')
    ensures var r := Take(s, relations, ['-', c]);
            && r.1 == (if [c] in s.options then 0 else -1030)
            && if [c] in s.options then MentionedIn(s, [c], r.0)
               else r.0.options == s.options && r.0.single == s.single
  {
    assert ['-', c][1..] == [c];
  }

  /** --name without '=': mentions the option of that long name, or fails and changes nothing. */
  lemma LongOptionMentions(s: ParseState, relations: Relations, name: string)
    requires NamesOwn(s.options, relations) && name != "" && '=' !in name
    ensures var r := Take(s, relations, "--" + name);
            && r.1 == (if name in relations then 0 else -1030)
            && if name in relations then MentionedIn(s, relations[name], r.0) else r.0 == s
  {
    TakesLong(s, relations, name);
    assert IndexOf(name, '=') == |name| && name[..|name|] == name;
  }

  /** '=' as the first or the last character behind the dashes, being the first one
      there, is refused, and nothing changes. */
  lemma BadLongOption(s: ParseState, relations: Relations, name: string, list: string)
    requires '=' !in name && (name == "" || list == "")
    ensures Take(s, relations, "--" + name + "=" + list) == (s, -1031)
  {
    var text := name + "=" + list;
    assert "--" + name + "=" + list == "--" + text;
    TakesLong(s, relations, text);
    assert text[..|name|] == name;
    FirstIndex(text, '=', |name|);
  }

  /** A cluster of letters mentions each of them, and the last one becomes the current option. */
  lemma ClusterTaken(s: ParseState, relations: Relations, letters: string)
    requires NamesOwn(s.options, relations) && |letters| > 1
    requires 'a' <= letters[0] <= 'z' || 'A' <= letters[0] <= 'Z'
    ensures var r := Take(s, relations, "-" + letters);
            && (r.1 == 0 <==> forall c | c in letters :: [c] in s.options)
            && (r.1 == 0 ==>
                  r.0 == s.(options := AfterLetters(s.options, letters), current := Some([letters[|letters| - 1]])))
  {
    var arg := "-" + letters;
    assert arg[1..] == letters && arg[|arg| - 1..] == [letters[|letters| - 1]];
    ClusterMentionsEachLetter(s, relations, letters);
  }

  /** Nothing comes of an empty token, and nothing of two dashes alone. */
  lemma NothingTaken(s: ParseState, relations: Relations)
    ensures Take(s, relations, "") == Take(s, relations, "--") == (s, 0)
  {
  }

  /** --name=v1|v2: a prefix of the values, as long as there is room, goes to the
      option of that long name, and nothing else changes. */
  lemma LongOptionTakesPrefix(s: ParseState, relations: Relations, name: string, list: string)
    requires NamesOwn(s.options, relations) && name in relations && name != "" && '=' !in name && list != ""
    ensures var short := relations[name];
            var v := Mentioned(s.options[short]);
            var values := Split(list, '|');
            Take(s, relations, "--" + name + "=" + list) ==
            (s.(current := Some(short),
                options := s.options[short := v.(values := v.values + values[..Fits(v, |values|)])]), CA_RET_OK)
  {
    hide AddAll, Fits, Take, Split;
    var text, short := name + "=" + list, relations[name];
    assert "--" + name + "=" + list == "--" + text;
    TakesLong(s, relations, text);
    FirstIndex(text, '=', |name|);
    assert text[..|name|] == name && text[|name| + 1..] == list;
    var m := Specify(s.(current := Some(short)), relations, short).0;
    var v, values := Mentioned(s.options[short]), Split(list, '|');
    assert m == s.(current := Some(short), options := s.options[short := v]);
    AddAllTakesPrefix(m, short, values);
    var x := v.(values := v.values + values[..Fits(v, |values|)]);
    assert m.options[short := x] == s.options[short := x];
  }

  lemma TakesLong(s: ParseState, relations: Relations, text: string)
    requires text != ""
    ensures Take(s, relations, "--" + text) == TakeLong(s, relations, text)
  {
    var arg := "--" + text;
    assert arg[0] == '-' && arg[1] == '-' && arg[2..] == text;
  }

  lemma {:induction false} ConcatTakes(s: ParseState, relations: Relations, a: seq<string>, b: seq<string>)
    ensures TakeAll(s, relations, a + b) ==
            var r := TakeAll(s, relations, a); if r.1 != CA_RET_OK then r else TakeAll(r.0, relations, b)
    decreases |a|
  {
    hide Take;
    if a == [] {
      assert a + b == b;
    } else {
      assert (a + b)[1..] == a[1..] + b;
      ConcatTakes(Take(s, relations, a[0]).0, relations, a[1..], b);
    }
  }

  lemma {:induction false} SpecifyAllSpecifies(s: ParseState, relations: Relations, letters: string)
    requires NamesOwn(s.options, relations) && letters != ""
    ensures var r := SpecifyAll(s, relations, letters);
            r.1 == CA_RET_OK ==>
              var last := letters[|letters| - 1..];
              last in r.0.options && r.0.options[last].specified
    decreases |letters|
  {
    var r := Specify(s, relations, letters[..1]);
    if r.1 == CA_RET_OK && |letters| > 1 {
      SpecifyAllSpecifies(r.0, relations, letters[1..]);
      assert letters[1..][|letters| - 2..] == letters[|letters| - 1..];
    } else {
      assert letters[|letters| - 1..] == letters[..1] || |letters| > 1;
    }
  }

  lemma TakeKeepsOwned(s: ParseState, relations: Relations, arg: string)
    requires NamesOwn(s.options, relations) && CurrentOwned(s)
    ensures var r := Take(s, relations, arg);
            NamesOwn(r.0.options, relations) && (r.1 == CA_RET_OK ==> CurrentOwned(r.0))
  {
    TakeGrows(s, relations, arg);
    if |arg| > 2 && arg[0] == '-' && !IsValue(arg) {
      hide Specify, AddValue;
      if arg[1] == '-' {
        TakeLongOwned(s, relations, arg[2..]);
      } else {
        SpecifyAllSpecifies(s, relations, arg[1..]);
        assert arg[1..][|arg| - 2..] == arg[|arg| - 1..];
      }
    }
  }

  lemma TakeLongOwned(s: ParseState, relations: Relations, text: string)
    requires NamesOwn(s.options, relations) && CurrentOwned(s)
    ensures var r := TakeLong(s, relations, text); r.1 == CA_RET_OK ==> CurrentOwned(r.0)
  {
    var eq := IndexOf(text, '=');
    if text[..eq] in relations {
      var short := relations[text[..eq]];
      var r := Specify(s.(current := Some(short)), relations, short);
      if eq < |text| {
        AddAllGrows(r.0, short, Split(text[eq + 1..], '|'));
        AddAllKeepsCurrent(r.0, short, Split(text[eq + 1..], '|'));
      }
    }
  }

  lemma {:induction false} AddAllKeepsCurrent(s: ParseState, short: string, values: seq<string>)
    ensures AddAll(s, short, values).current == s.current
    decreases |values|
  {
    if values != [] {
      AddAllKeepsCurrent(AddValue(s, Some(short), values[0]).0, short, values[1..]);
    }
  }

  lemma {:induction false} TakeAllKeepsOwned(s: ParseState, relations: Relations, args: seq<string>)
    requires NamesOwn(s.options, relations) && CurrentOwned(s)
    ensures var r := TakeAll(s, relations, args); r.1 == CA_RET_OK ==> CurrentOwned(r.0)
    decreases |args|
  {
    hide Take, NamesOwn, CurrentOwned;
    if args != [] {
      TakeKeepsOwned(s, relations, args[0]);
      if Take(s, relations, args[0]).1 == CA_RET_OK {
        TakeAllKeepsOwned(Take(s, relations, args[0]).0, relations, args[1..]);
      }
    }
  }

  /** A run of positional tokens whose option is a specified one: a prefix goes to
      that option and the rest to the single parameters; each is stored once, in
      order, and nothing after the run removes or reorders it. */
  lemma RunStays(m: ParseState, relations: Relations, run: seq<string>, after: seq<string>)
    requires CurrentOwned(m) && AllValues(run)
    ensures var r, values := TakeAll(m, relations, run + after).0, StoredAll(run);
            && m.single + values[Share(m, |values|)..] <= r.single
            && (m.current.Some? ==>
                  var o := m.current.value;
                  o in r.options && m.options[o].values + values[..Share(m, |values|)] <= r.options[o].values)
  {
    hide Take, Share;
    var values := StoredAll(run);
    RunIsDistributed(m, relations, run);
    ConcatTakes(m, relations, run, after);
    TakeAllGrows(Distributed(m, values), relations, after);
  }

  /** The condition is needed: a later mention of the option keeps the tokens the
      run gave it exactly if it was specified before the run. */
  lemma RunCanBeLost(m: ParseState, relations: Relations, run: seq<string>, d: char)
    requires AllValues(run) && IsLetter(d)
    requires m.current.Some? && m.current.value in m.options
    requires Target(m.options, relations, [d]) == m.current
    ensures var o, r := m.current.value, TakeAll(m, relations, run + [['-', d]]);
            && r.1 == CA_RET_OK && o in r.0.options
            && r.0.single == m.single + StoredAll(run)[Share(m, |run|)..]
            && r.0.options[o].values ==
               if m.options[o].specified then m.options[o].values + StoredAll(run)[..Share(m, |run|)] else []
  {
    hide Share, Take, Target;
    RunIsDistributed(m, relations, run);
    ConcatTakes(m, relations, run, [['-', d]]);
    SameTarget(m, relations, [d], StoredAll(run));
    MentionedAgain(Distributed(m, StoredAll(run)), relations, m.current.value, d);
  }

  lemma SameTarget(m: ParseState, relations: Relations, name: string, values: seq<string>)
    requires m.current.Some? && m.current.value in m.options
    ensures Target(Distributed(m, values).options, relations, name) == Target(m.options, relations, name)
  {
  }

  lemma MentionedAgain(n: ParseState, relations: Relations, o: string, d: char)
    requires IsLetter(d) && o in n.options && Target(n.options, relations, [d]) == Some(o)
    ensures TakeAll(n, relations, [['-', d]]) ==
            (n.(current := Some([d]), options := n.options[o := Mentioned(n.options[o])]), CA_RET_OK)
  {
    assert ['-', d][1..] == [d];
    var r := Take(n, relations, ['-', d]);
    assert n.options[o := n.options[o]] == n.options;
    assert r == (n.(current := Some([d]), options := n.options[o := Mentioned(n.options[o])]), CA_RET_OK);
    assert [['-', d]][1..] == [];
  }

  /** So names that are not kept apart lose values. Where b is both a short name and
      the long name of option x, and d is the long name of b, the line -b value -d is
      accepted, and the value is stored nowhere. */
  lemma LosingParse(s: ParseState, relations: Relations, b: char, value: string, d: char)
    requires IsLetter(b) && IsLetter(d) && IsValue(value)
    requires [b] in relations && relations[[b]] != [b] && relations[[b]] in s.options
    requires [d] in relations && relations[[d]] == [b]
    requires [b] in s.options && !s.options[[b]].specified
    requires s.options[[b]].fixed ==> |s.options[[b]].values| < s.options[[b]].least
    ensures !NamesOwn(s.options, relations)
    ensures var x, o := relations[[b]], s.options[[b]];
            var r := TakeAll(s, relations, [['-', b], value, ['-', d]]);
            && r.1 == CA_RET_OK && r.0.single == s.single
            && r.0.options == s.options[x := Mentioned(s.options[x])][[b] := o.(specified := true, values := [])]
  {
    assert ['-', b][1..] == [b];
    var m := Take(s, relations, ['-', b]).0;
    assert m == s.(current := Some([b]), options := s.options[relations[[b]] := Mentioned(s.options[relations[[b]]])]);
    var line := [value] + [['-', d]];
    assert [['-', b], value, ['-', d]] == [['-', b]] + line;
    assert ([['-', b]] + line)[1..] == line;
    ThenLost(m, relations, b, value, d);
  }

  lemma ThenLost(m: ParseState, relations: Relations, b: char, value: string, d: char)
    requires IsLetter(d) && IsValue(value) && m.current == Some([b]) && [b] in m.options
    requires !m.options[[b]].specified && (m.options[[b]].fixed ==> |m.options[[b]].values| < m.options[[b]].least)
    requires Target(m.options, relations, [d]) == Some([b])
    ensures var r := TakeAll(m, relations, [value] + [['-', d]]);
            && r.1 == CA_RET_OK && r.0.single == m.single
            && r.0.options == m.options[[b] := m.options[[b]].(specified := true, values := [])]
  {
    var line := [value] + [['-', d]];
    assert line[1..] == [['-', d]] && ['-', d][1..] == [d];
    var n := PlaceValue(m, Stored(value)).0;
    TakesValue(m, relations, value);
    assert TakeAll(n, relations, [['-', d]]) == Take(n, relations, ['-', d]);
  }

  /** With names kept apart, every run anywhere on the command line stays where it went. */
  lemma RunStaysWhereItWent(s: ParseState, relations: Relations, before: seq<string>, run: seq<string>,
                            after: seq<string>)
    requires NamesOwn(s.options, relations) && CurrentOwned(s)
    requires AllValues(run) && TakeAll(s, relations, before).1 == CA_RET_OK
    ensures var m, r := TakeAll(s, relations, before).0, TakeAll(s, relations, before + run + after).0;
            var values := StoredAll(run);
            && CurrentOwned(m)
            && m.single + values[Share(m, |values|)..] <= r.single
            && (m.current.Some? ==>
                  var o := m.current.value;
                  o in r.options && m.options[o].values + values[..Share(m, |values|)] <= r.options[o].values)
  {
    hide Take, NamesOwn, Share;
    TakeAllKeepsOwned(s, relations, before);
    Assoc(before, run, after);
    ConcatTakes(s, relations, before, run + after);
    RunStays(TakeAll(s, relations, before).0, relations, run, after);
  }
}
