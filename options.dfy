/** glib/option.go: the `option <name> <value>` command of the git
    remote-helper protocol (gitremote-helpers(7), "option").  Only
    `verbosity` is supported; every other option is answered `unsupported`. */
module Options {
  import opened Base
  import opened Text

  /** `OptionArg`: the option's name and value. */
  datatype OptionArg = OptionArg(name: string, value: string)

  /** An option command as git writes it. */
  function OptionLine(command: string, name: string, value: string): string {
    command + " " + name + " " + value
  }

  /** parseOptionArg: the line split at its first two spaces; the name is
      the second field and the value everything after the second space. */
  function ParseOptionArg(raw: string): (r: Result<OptionArg>)
    ensures ' ' !in raw ==> r == Err(OptionParse)
    ensures r.Err? ==> r == Err(OptionParse)
  {
    var parts := SplitN(raw, ' ', 3);
    if |parts| != 3 then Err(OptionParse) else Ok(OptionArg(parts[1], parts[2]))
  }

  /** A parsed line is a command word, the name and the value, with no
      space in the first two. */
  lemma ParsedOptionLine(raw: string)
    requires ParseOptionArg(raw).Ok?
    ensures var arg := ParseOptionArg(raw).value;
      exists command :: ' ' !in command && ' ' !in arg.name && raw == OptionLine(command, arg.name, arg.value)
  {
    var parts := SplitN(raw, ' ', 3);
    assert Join(parts, ' ') == parts[0] + [' '] + (parts[1] + [' '] + Join([parts[2]], ' '));
    assert raw == OptionLine(parts[0], parts[1], parts[2]);
  }

  /** Every option line whose command and name hold no space parses back,
      the value keeping any further spaces. */
  lemma OptionLineRoundTrip(command: string, name: string, value: string)
    requires ' ' !in command && ' ' !in name
    ensures ParseOptionArg(OptionLine(command, name, value)) == Ok(OptionArg(name, value))
  {
    assert OptionLine(command, name, value) == command + [' '] + (name + [' '] + value);
    SplitNCons(command, name + [' '] + value, ' ', 3);
    SplitNCons(name, value, ' ', 2);
  }

  /** A line with one space or none is rejected. */
  lemma OneSpaceRejected(a: string, b: string)
    requires ' ' !in a && ' ' !in b
    ensures ParseOptionArg(a + " " + b) == Err(OptionParse)
  {
    SplitNCons(a, b, ' ', 3);
  }

  /** The answer printed for an option. */
  function OptionReply(arg: OptionArg): (r: string)
    ensures r == "ok\n" <==> arg.name == "verbosity"
    ensures r == "unsupported\n" <==> arg.name != "verbosity"
  {
    if arg.name == "verbosity" then "ok\n" else "unsupported\n"
  }

  /** The verbose flag after an option: `verbosity` with any value but "1"
      turns it on; nothing turns it off. */
  function VerboseAfter(verbose: bool, arg: OptionArg): (r: bool)
    ensures verbose ==> r
    ensures r <==> verbose || (arg.name == "verbosity" && arg.value != "1")
  {
    if arg.name == "verbosity" && arg.value != "1" then true else verbose
  }

  /** The helper's process-wide state that `option` touches: the `verbose`
      flag and what has been written to standard output. */
  class Session {
    var verbose: bool
    var out: string

    /** A fresh process: `verbose` starts out true. */
    constructor ()
      ensures verbose && out == ""
    {
      verbose := true;
      out := "";
    }

    /** option: a line that does not parse is returned as an error with no
        output; otherwise the reply is printed and the flag updated. */
    method Option(command: string) returns (r: Result<()>)
      modifies this
      ensures ParseOptionArg(command).Err? ==>
        r == Err(OptionParse) && out == old(out) && verbose == old(verbose)
      ensures ParseOptionArg(command).Ok? ==>
        var arg := ParseOptionArg(command).value;
        r == Ok(()) && out == old(out) + OptionReply(arg) && verbose == VerboseAfter(old(verbose), arg)
    {
      var arg := ParseOptionArg(command);
      if arg.Err? {
        return Err(arg.error);
      }
      if arg.value.name == "verbosity" {
        if arg.value.value != "1" {
          verbose := true;
        }
        out := out + "ok\n";
      } else {
        out := out + "unsupported\n";
      }
      return Ok(());
    }
  }
}
