/** command_line.cpp: the parser, which learns options and then parses once. */
module CommandLine {
  import opened Wrappers
  import opened ReturnCodes
  import opened StringSplit
  import opened CommandLineModel

  const DIRECTORY_DELIMITER := '/'

  class CommandLine {
    var options: Options
    var relations: Relations
    var single: seq<string>
    var hasParsed: bool
    var programName: string
    var programDirectory: string

    constructor ()
      ensures options == map[] && relations == map[] && single == [] && !hasParsed
      ensures programName == programDirectory == ""
    {
      options, relations, single, hasParsed := map[], map[], [], false;
      programName, programDirectory := "", "";
    }

    /** Long names lead to options, and before a parse none is specified. */
    ghost predicate Valid()
      reads this
    {
      && (forall n | n in relations :: relations[n] in options)
      && (!hasParsed ==> Ready(options))
    }

    ghost function View(current: Option<string>): ParseState
      reads this
    {
      ParseState(options, single, current)
    }

    /** The new option is known by both names; a failure changes nothing. The name
        combination must hold a name, as its first piece is used unchecked. */
    method LearnOption(names: string, least: int, defaults: string, fixed: bool) returns (ret: int)
      requires Valid()
      requires names != "" ==> Split(names, ',') != []
      modifies this
      ensures Valid() && single == old(single) && hasParsed == old(hasParsed)
      ensures ret != 0 ==> options == old(options) && relations == old(relations)
      ensures ret == if least < 0 then -1016
                     else if names == "" then -1006
                     else
                       var given := Split(names, ',');
                       if given[0] in old(options) then -1007
                       else if (if |given| == 1 then given[0] else given[1]) in old(relations) then -1007
                       else 0
      ensures ret == 0 ==>
                var given := Split(names, ',');
                && options == old(options)[given[0] := OptionValue(least, fixed, false, Split(defaults, ' '))]
                && relations == old(relations)[(if |given| == 1 then given[0] else given[1]) := given[0]]
    {
      if least < 0 {
        return VALUE_OUT_OF_RANGE;
      }
      if |names| <= 0 {
        return INVALID_PARAM_VALUE;
      }
      var optionNames := Split(names, ',');
      var shortName := optionNames[0];
      if shortName in options {
        return OBJECT_ALREADY_EXISTS;
      }
      var longName := LongName(optionNames);
      if longName in relations {
        return OBJECT_ALREADY_EXISTS;
      }
      relations := relations[longName := shortName];
      options := options[shortName := OptionValue(least, fixed, false, Split(defaults, ' '))];
      return CA_RET_OK;
    }

    /** With a single name the short name is the long one too. */
    static function LongName(names: seq<string>): string
      requires names != []
    {
      if |names| > 1 then names[1] else names[0]
    }

    method SetIsSpecified(name: string, ghost current: Option<string>) returns (ret: int)
      modifies `options
      ensures (View(current), ret) == Specify(old(View(current)), relations, name)
    {
      var short := if name in relations then relations[name] else name;
      if short !in options {
        return UNKNOWN_CMD_LINE_OPTION;
      }
      if !options[short].specified {
        options := options[short := options[short].(specified := true, values := [])];
      }
      return CA_RET_OK;
    }

    method AddValueTo(option: Option<string>, value: string, ghost current: Option<string>) returns (ret: int)
      modifies `options, `single
      ensures (View(current), ret) == AddValue(old(View(current)), option, value)
    {
      if option.None? {
        single := single + [value];
        return CA_RET_OK;
      }
      var short := option.value;
      if short !in options {
        return UNKNOWN_CMD_LINE_OPTION;
      }
      if options[short].fixed && |options[short].values| >= options[short].least {
        return EXCESS_OBJECT_COUNT;
      }
      options := options[short := options[short].(values := options[short].values + [value])];
      return CA_RET_OK;
    }

    method Place(current: Option<string>, value: string) returns (now: Option<string>, ret: int)
      modifies `options, `single
      ensures (View(now), ret) == PlaceValue(old(View(current)), value)
    {
      now := current;
      ret := AddValueTo(current, value, now);
      if ret == EXCESS_OBJECT_COUNT {
        now := None;
        ret := AddValueTo(None, value, now);
      }
    }

    method SpecifyCluster(letters: string, ghost current: Option<string>) returns (ret: int)
      modifies `options
      ensures (View(current), ret) == SpecifyAll(old(View(current)), relations, letters)
    {
      var i := 0;
      while i < |letters|
        invariant 0 <= i <= |letters|
        invariant SpecifyAll(old(View(current)), relations, letters) ==
                  SpecifyAll(View(current), relations, letters[i..])
      {
        assert letters[i..][..1] == letters[i..i + 1] && letters[i..][1..] == letters[i + 1..];
        ret := SetIsSpecified(letters[i..i + 1], current);
        if ret != CA_RET_OK {
          return;
        }
        i := i + 1;
      }
      ret := CA_RET_OK;
    }

    method AddLongValues(short: string, values: seq<string>, ghost current: Option<string>)
      modifies `options, `single
      ensures View(current) == AddAll(old(View(current)), short, values)
    {
      var i := 0;
      while i < |values|
        invariant 0 <= i <= |values|
        invariant AddAll(old(View(current)), short, values) == AddAll(View(current), short, values[i..])
      {
        assert values[i..][1..] == values[i + 1..];
        var _ := AddValueTo(Some(short), values[i], current);
        i := i + 1;
      }
    }

    method LongOption(current: Option<string>, text: string) returns (now: Option<string>, ret: int)
      modifies `options, `single
      ensures ret == CA_RET_OK ==> (View(now), ret) == TakeLong(old(View(current)), relations, text)
      ensures (options, single, ret) ==
              var r := TakeLong(old(View(current)), relations, text); (r.0.options, r.0.single, r.1)
    {
      now := current;
      var equalSign := IndexOf(text, '=');
      if equalSign < |text| && (equalSign == 0 || equalSign == |text| - 1) {
        return now, INVALID_CMD_LINE_FORMAT;
      }
      var longOption := text[..equalSign];
      if longOption !in relations {
        return now, UNKNOWN_CMD_LINE_OPTION;
      }
      now := Some(relations[longOption]);
      ret := SetIsSpecified(relations[longOption], now);
      if ret == CA_RET_OK && equalSign < |text| {
        AddLongValues(relations[longOption], Split(text[equalSign + 1..], '|'), now);
      }
    }

    /** One argument. With no option to take it, a token is stored as it is. */
    method TakeArgument(current: Option<string>, arg: string) returns (now: Option<string>, ret: int)
      modifies `options, `single
      ensures ret == CA_RET_OK ==> (View(now), ret) == Take(old(View(current)), relations, arg)
      ensures (options, single, ret) ==
              var r := Take(old(View(current)), relations, arg); (r.0.options, r.0.single, r.1)
      ensures AsItIs(arg) && current.None? ==>
                ret == 0 && now == None && single == old(single) + [arg] && options == old(options)
    {
      now, ret := current, CA_RET_OK;
      if |arg| <= 0 {
        return;
      } else if |arg| == 1 {
        now, ret := Place(current, arg);
      } else if |arg| == 2 {
        if arg[0] != '-' {
          now, ret := Place(current, arg);
        } else if arg[1] == '-' {
          return;
        } else if IsLetter(arg[1]) {
          now := Some(arg[1..]);
          ret := SetIsSpecified(arg[1..], now);
        } else {
          now, ret := Place(current, arg[1..]);
        }
      } else {
        if arg[0] != '-' {
          now, ret := Place(current, arg);
        } else if arg[1] != '-' {
          if !IsLetter(arg[1]) {
            now, ret := Place(current, arg);
          } else {
            ret := SpecifyCluster(arg[1..], current);
            now := Some(arg[|arg| - 1..]);
          }
        } else {
          now, ret := LongOption(current, arg[2..]);
        }
      }
    }

    /** The final look at every option. */
    method EnoughValues() returns (enough: bool)
      ensures enough <==> Sufficient(options)
    {
      var rest := options.Keys;
      enough := true;
      while rest != {}
        invariant rest <= options.Keys && enough
        invariant forall o | o in options && o !in rest ::
                    options[o].specified ==> |options[o].values| >= options[o].least
        decreases |rest|
      {
        var o :| o in rest;
        if options[o].specified && |options[o].values| < options[o].least {
          return false;
        }
        rest := rest - {o};
      }
    }

    /** Parses the arguments after the program name, once. On success every
        specified option has its values: exactly so many when the count is fixed. A
        line without options gives its tokens as they are. */
    method Parse(argv: seq<string>) returns (ret: int)
      requires Valid() && argv != []
      modifies `options, `single, `hasParsed, `programName, `programDirectory
      ensures hasParsed
      ensures old(hasParsed) ==>
                && ret == -1028 && options == old(options) && single == old(single)
                && programName == old(programName) && programDirectory == old(programDirectory)
      ensures !old(hasParsed) ==>
                var r := TakeAll(old(View(None)), relations, argv[1..]);
                && options == r.0.options && single == r.0.single
                && ret == if r.1 != 0 then r.1
                          else if forall o | o in options :: options[o].specified ==>
                                    |options[o].values| >= options[o].least then 0
                          else -1029
      ensures !old(hasParsed) ==>
                && '/' !in programName
                && if '/' in argv[0] then
                     argv[0] == programDirectory + ['/'] + programName
                   else programName == argv[0] && programDirectory == "."
      ensures ret == CA_RET_OK ==>
                forall o | o in options :: options[o].specified ==>
                  if options[o].fixed then |options[o].values| == options[o].least
                  else |options[o].values| >= options[o].least
      ensures !old(hasParsed) && (forall arg | arg in argv[1..] :: AsItIs(arg)) ==>
                ret == 0 && options == old(options) && single == old(single) + argv[1..]
    {
      hide AsItIs;
      if hasParsed {
        return OPERATION_ALREADY_DONE;
      }
      PlainLine(options, relations, single, argv[1..]);
      ParsedCounts(options, relations, single, argv[1..]);
      hasParsed := true;
      NameProgram(argv[0]);
      ghost var name, directory := programName, programDirectory;
      var shortOption: Option<string> := None;
      var i := 1;
      while i < |argv|
        invariant 1 <= i <= |argv| && hasParsed && programName == name && programDirectory == directory
        invariant TakeAll(old(View(None)), relations, argv[1..]) == TakeAll(View(shortOption), relations, argv[i..])
      {
        hide Take;
        assert argv[i..][1..] == argv[i + 1..];
        shortOption, ret := TakeArgument(shortOption, argv[i]);
        if ret != CA_RET_OK {
          return;
        }
        i := i + 1;
      }
      var enough := EnoughValues();
      ret := if enough then CA_RET_OK else CMD_LINE_PARAM_INSUFFICIENT;
    }

    /** Splits the program's path at the last delimiter. */
    method NameProgram(path: string)
      modifies `programName, `programDirectory
      ensures '/' !in programName
      ensures if '/' in path then path == programDirectory + ['/'] + programName
              else programName == path && programDirectory == "."
    {
      var i := |path|;
      while i > 0 && path[i - 1] != DIRECTORY_DELIMITER
        invariant 0 <= i <= |path| && DIRECTORY_DELIMITER !in path[i..]
      {
        i := i - 1;
        assert path[i..] == [path[i]] + path[i + 1..];
      }
      if i == 0 {
        assert path[0..] == path;
        programName, programDirectory := path, ".";
      } else {
        programDirectory, programName := path[..i - 1], path[i..];
      }
    }

    /** Forgets the values, default ones too, so that a parse can start again. */
    method Reset()
      requires Valid()
      modifies this
      ensures Valid() && !hasParsed && single == [] && relations == old(relations)
      ensures programName == old(programName) && programDirectory == old(programDirectory)
      ensures options == map o | o in old(options) :: old(options)[o].(specified := false, values := [])
    {
      options := map o | o in options :: options[o].(specified := false, values := []);
      single := [];
      hasParsed := false;
    }
  }
}
