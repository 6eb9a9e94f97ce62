/** Reading a line of an authorized keys file, as sshd(8) describes its format: what a printed line means to its
    reader. */
module AuthorizedKeys {
  import opened Errors

  /** An option: a flag, or a name with a quoted value. */
  datatype Setting = Flag(name: string) | Quoted(name: string, value: string)

  datatype Entry = Entry(options: seq<Setting>, keyType: string, key: string)

  // ---- the reader

  /** Where the separator first stands outside quotes; the end if it does not. */
  function Find(text: string, separator: char, quoted: bool): (k: nat)
    ensures k <= |text|
  {
    if text == "" || (!quoted && text[0] == separator) then 0
    else 1 + Find(text[1..], separator, if text[0] == '"' then !quoted else quoted)
  }

  /** The pieces between separators that stand outside quotes. */
  function Split(text: string, separator: char): seq<string> {
    var k := Find(text, separator, false);
    if k == |text| then [text] else [text[..k]] + Split(text[k + 1..], separator)
  }

  function ReadSetting(text: string): Option<Setting> {
    var k := Find(text, '=', false);
    if k == |text| then (if text == "" || '"' in text then None else Some(Flag(text)))
    else
      var value := text[k + 1..];
      if |value| < 2 || value[0] != '"' || value[|value| - 1] != '"' || '"' in value[1..|value| - 1] then None
      else Some(Quoted(text[..k], value[1..|value| - 1]))
  }

  function ReadSettings(texts: seq<string>): Option<seq<Setting>> {
    if texts == [] then Some([])
    else
      var first, rest := ReadSetting(texts[0]), ReadSettings(texts[1..]);
      if first.None? || rest.None? then None else Some([first.value] + rest.value)
  }

  /** One line: options, key type and key, separated by single spaces outside quotes. */
  function ReadLine(text: string): Option<Entry> {
    if text == "" || text[|text| - 1] != '\n' || '\n' in text[..|text| - 1] then None
    else
      var parts := Split(text[..|text| - 1], ' ');
      if |parts| != 3 || parts[1] == "" || parts[2] == "" then None
      else
        var options := ReadSettings(Split(parts[0], ','));
        if options.None? then None else Some(Entry(options.value, parts[1], parts[2]))
  }

  // ---- what it makes of pieces that were put together

  /** Without quotes, the separator is found where it first stands. */
  lemma {:induction false} FindPlain(a: string, separator: char, rest: string)
    requires separator !in a && '"' !in a && separator != '"'
    ensures Find(a + [separator] + rest, separator, false) == |a| && Find(a, separator, false) == |a|
  {
    if a == "" {
      assert a + [separator] + rest == [separator] + rest;
    } else {
      FindPlain(a[1..], separator, rest);
      assert (a + [separator] + rest)[1..] == a[1..] + [separator] + rest;
    }
  }

  /** Between quotes nothing separates. */
  lemma {:induction false} FindQuoted(a: string, separator: char, rest: string)
    requires '"' !in a && separator != '"'
    ensures Find(a + "\"" + rest, separator, true) == |a| + 1 + Find(rest, separator, false)
  {
    if a == "" {
      assert a + "\"" + rest == "\"" + rest && ("\"" + rest)[1..] == rest;
    } else {
      FindQuoted(a[1..], separator, rest);
      assert (a + "\"" + rest)[1..] == a[1..] + "\"" + rest;
    }
  }

  /** A prefix without quotes and separators, then a quoted value. */
  lemma {:induction false} FindSetting(a: string, value: string, separator: char, rest: string)
    requires separator !in a && '"' !in a && '"' !in value && separator != '"'
    ensures Find(a + "\"" + value + "\"" + rest, separator, false)
            == |a| + 2 + |value| + Find(rest, separator, false)
  {
    var text := a + "\"" + value + "\"" + rest;
    if a == "" {
      FindQuoted(value, separator, rest);
      assert text == "\"" + (value + "\"" + rest) && text[1..] == value + "\"" + rest;
    } else {
      FindSetting(a[1..], value, separator, rest);
      assert text[1..] == a[1..] + "\"" + value + "\"" + rest;
    }
  }

  lemma SplitPlain(a: string, separator: char)
    requires separator !in a && '"' !in a && separator != '"'
    ensures Split(a, separator) == [a]
  {
    FindPlain(a, separator, "");
  }

  lemma SplitStep(a: string, separator: char, rest: string)
    requires Find(a + [separator] + rest, separator, false) == |a|
    ensures Split(a + [separator] + rest, separator) == [a] + Split(rest, separator)
  {
    var text := a + [separator] + rest;
    assert text[..|a|] == a && text[|a| + 1..] == rest;
  }

  /** A certificate authority with one principal, as one line. */
  function AuthorityLine(principal: string, keyType: string, key: string): string {
    "cert-authority,principals=\"" + principal + "\" " + keyType + " " + key + "\n"
  }

  /** Text that neither ends nor splits a line. */
  predicate OneWord(s: string) {
    s != "" && ' ' !in s && '\n' !in s && '"' !in s
  }

  function AuthorityOptions(principal: string): string {
    "cert-authority,principals=\"" + principal + "\""
  }

  lemma OptionsRead(principal: string)
    requires '"' !in principal
    ensures ReadSettings(Split(AuthorityOptions(principal), ','))
            == Some([Flag("cert-authority"), Quoted("principals", principal)])
  {
    hide Find, ReadSetting, ReadSettings;
    var flag, name := "cert-authority", "principals=";
    var setting := name + "\"" + principal + "\"";
    assert AuthorityOptions(principal) == flag + [','] + setting;
    FindPlain(flag, ',', setting);
    SplitStep(flag, ',', setting);
    FindSetting(name, principal, ',', "");
    FindNothing(',');
    assert setting + "" == setting;
    assert Split(setting, ',') == [setting];
    assert Split(AuthorityOptions(principal), ',') == [flag, setting];
    FlagRead();
    PrincipalsRead(principal);
    assert setting == "principals=\"" + principal + "\"";
    TwoSettings(flag, setting, Flag("cert-authority"), Quoted("principals", principal));
  }

  lemma TwoSettings(a: string, b: string, x: Setting, y: Setting)
    requires ReadSetting(a) == Some(x) && ReadSetting(b) == Some(y)
    ensures ReadSettings([a, b]) == Some([x, y])
  {
    hide ReadSetting;
    assert [a, b][1..] == [b] && [b][1..] == [];
    assert ReadSettings([]) == Some([]);
    assert [y] + [] == [y] && [x] + [y] == [x, y];
    assert ReadSettings([b]) == Some([y]);
  }

  lemma FindNothing(separator: char)
    ensures Find("", separator, false) == 0
  {
  }

  lemma FlagRead()
    ensures ReadSetting("cert-authority") == Some(Flag("cert-authority"))
  {
    hide Find;
    FindPlain("cert-authority", '=', "");
  }

  lemma PrincipalsRead(principal: string)
    requires '"' !in principal
    ensures ReadSetting("principals=\"" + principal + "\"") == Some(Quoted("principals", principal))
  {
    hide Find;
    var value := "\"" + principal + "\"";
    var text := "principals=\"" + principal + "\"";
    assert text == "principals" + ['='] + value;
    FindPlain("principals", '=', value);
    assert text[..10] == "principals" && text[11..] == value;
    assert value[1..|value| - 1] == principal;
  }

  lemma PartsRead(principal: string, keyType: string, key: string)
    requires OneWord(principal) && OneWord(keyType) && OneWord(key)
    ensures Split(AuthorityOptions(principal) + [' '] + (keyType + [' '] + key), ' ')
            == [AuthorityOptions(principal), keyType, key]
  {
    hide Find, Split;
    var options, rest := AuthorityOptions(principal), keyType + [' '] + key;
    var name := "cert-authority,principals=";
    FindSetting(name, principal, ' ', [' '] + rest);
    FindPlain("", ' ', rest);
    assert "" + [' '] + rest == [' '] + rest;
    assert options == name + "\"" + principal + "\"";
    assert name + "\"" + principal + "\"" + ([' '] + rest) == options + [' '] + rest;
    SplitStep(options, ' ', rest);
    FindPlain(keyType, ' ', key);
    SplitStep(keyType, ' ', key);
    SplitPlain(key, ' ');
    assert [options] + ([keyType] + [key]) == [options, keyType, key];
  }

  /** The line is read as a certificate authority for the key, restricted to the principal. */
  lemma AuthorityRead(principal: string, keyType: string, key: string)
    requires OneWord(principal) && OneWord(keyType) && OneWord(key)
    ensures ReadLine(AuthorityLine(principal, keyType, key))
            == Some(Entry([Flag("cert-authority"), Quoted("principals", principal)], keyType, key))
  {
    hide Find, Split, ReadSettings;
    var options := AuthorityOptions(principal);
    var text := AuthorityLine(principal, keyType, key);
    var body := options + [' '] + (keyType + [' '] + key);
    assert text == body + "\n" && text[..|text| - 1] == body;
    assert '\n' !in options && '\n' !in body;
    PartsRead(principal, keyType, key);
    OptionsRead(principal);
  }
}
