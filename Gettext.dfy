/** `_my_gettext` (readcomlin.py): a fixed table translating some argparse messages into
    Spanish; any other string is returned unchanged. */
module Gettext {

  /** argparse's help text for the `--version` action. */
  const ArgparseVersionHelp := "show program's version number and exit"

  /** The table exactly as the source writes it. At line 50 the key is written as two
      adjacent literals, `'show program'` and `'s version number and exit'`, which Python
      joins without an apostrophe. */
  const TableAsWritten: map<string, string> := map[
    "usage: " := "uso: ",
    "optional arguments" := "argumentos opcionales",
    "show this help message and exit" := "mostrar esta ayuda y salir",
    "positional arguments" := "argumentos posicionales",
    "the following arguments are required: %s" := "los siguientes argumentos son requeridos: %s",
    "show program" + "s version number and exit" := "Mostrar la versión del programa y salir",
    "expected one argument" := "se espera un valor para el parámetro",
    "expected at least one argument" := "se espera al menos un valor para el parámetro"
  ]

  /** The table with the key of line 50 spelled as argparse spells it. */
  const Table: map<string, string> := map[
    "usage: " := "uso: ",
    "optional arguments" := "argumentos opcionales",
    "show this help message and exit" := "mostrar esta ayuda y salir",
    "positional arguments" := "argumentos posicionales",
    "the following arguments are required: %s" := "los siguientes argumentos son requeridos: %s",
    ArgparseVersionHelp := "Mostrar la versión del programa y salir",
    "expected one argument" := "se espera un valor para el parámetro",
    "expected at least one argument" := "se espera al menos un valor para el parámetro"
  ]

  /** The lookup with fallback both tables are used with: the entry when `s` is a key,
      `s` itself otherwise. */
  function Lookup(table: map<string, string>, s: string): string {
    if s in table then table[s] else s
  }

  /** `_my_gettext` as written. */
  function MyGettextAsWritten(s: string): string {
    Lookup(TableAsWritten, s)
  }

  /** `_my_gettext` with the corrected key. */
  function MyGettext(s: string): string {
    Lookup(Table, s)
  }

  /** No entry of `table` is itself one of its keys. */
  predicate NoEntryIsKey(table: map<string, string>) {
    forall k | k in table :: table[k] !in table
  }

  /** For a table none of whose entries is a key, the string changes exactly when it is a
      key, and then becomes its entry. */
  lemma LookupTranslatesKeys(table: map<string, string>, s: string)
    requires NoEntryIsKey(table)
    ensures s in table ==> Lookup(table, s) == table[s]
    ensures Lookup(table, s) != s <==> s in table
  {
  }

  /** For such a table, translating twice is translating once. */
  lemma LookupIdempotent(table: map<string, string>, s: string)
    requires NoEntryIsKey(table)
    ensures Lookup(table, Lookup(table, s)) == Lookup(table, s)
  {
  }

  /** Both tables have that property: no Spanish entry is an English key. */
  lemma NoEntryIsAKey()
    ensures NoEntryIsKey(TableAsWritten)
    ensures NoEntryIsKey(Table)
  {
  }

  /** `_my_gettext`, as written and corrected, changes a string exactly when it is a key of
      its table, and then gives that key's entry. */
  lemma MyGettextTranslatesKeys(s: string)
    ensures s in TableAsWritten ==> MyGettextAsWritten(s) == TableAsWritten[s]
    ensures MyGettextAsWritten(s) != s <==> s in TableAsWritten
    ensures s in Table ==> MyGettext(s) == Table[s]
    ensures MyGettext(s) != s <==> s in Table
  {
    NoEntryIsAKey();
    LookupTranslatesKeys(TableAsWritten, s);
    LookupTranslatesKeys(Table, s);
  }

  /** `_my_gettext`, as written and corrected, is idempotent. */
  lemma MyGettextIdempotent(s: string)
    ensures MyGettextAsWritten(MyGettextAsWritten(s)) == MyGettextAsWritten(s)
    ensures MyGettext(MyGettext(s)) == MyGettext(s)
  {
    NoEntryIsAKey();
    LookupIdempotent(TableAsWritten, s);
    LookupIdempotent(Table, s);
  }

  /** The table as written never translates argparse's `--version` help: that string is not
      one of its keys. */
  lemma VersionHelpFallsThroughAsWritten()
    ensures ArgparseVersionHelp !in TableAsWritten
    ensures MyGettextAsWritten(ArgparseVersionHelp) == ArgparseVersionHelp
  {
  }

  /** What the table as written does translate is the string without the apostrophe. */
  lemma ApostropheLessKeyAsWritten()
    ensures MyGettextAsWritten("show programs version number and exit") == "Mostrar la versión del programa y salir"
  {
    assert "show program" + "s version number and exit" == "show programs version number and exit";
  }

  /** With the corrected key the help text is translated, and the two tables agree on every
      other string. */
  lemma VersionHelpTranslated(s: string)
    ensures MyGettext(ArgparseVersionHelp) == "Mostrar la versión del programa y salir"
    ensures s != ArgparseVersionHelp && s != "show program" + "s version number and exit" ==>
      MyGettext(s) == MyGettextAsWritten(s)
  {
  }
}
