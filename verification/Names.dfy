/** The lexical part of the database name check, on Unix path syntax and without symbolic links. */
module Names {
  import opened Basics

  /** Later components of a path: empty ones and `.` vanish. */
  function Later(parts: seq<string>): seq<string> {
    if parts == [] then []
    else (if parts[0] == "" || parts[0] == "." then [] else [parts[0]]) + Later(parts[1..])
  }

  predicate IsPlain(name: string) { name != "" && name != "." && name != ".." && '/' !in name }

  /** `is_safe_database_name`: not empty, not absolute, and exactly one component, a normal one. */
  predicate IsSafe(name: string) {
    var parts := Split(name, '/');
    name != "" && name[0] != '/' && parts[0] != "." && parts[0] != ".." && Later(parts[1..]) == []
  }

  /** The directory entry a safe name resolves to. */
  function Entry(name: string): string { Split(name, '/')[0] }

  lemma FirstPart(name: string)
    requires name != "" && name[0] != '/'
    ensures Entry(name) != ""
  {}

  /** A safe name always resolves to an entry directly inside the folder. */
  lemma SafeNamesStayInside(name: string)
    requires IsSafe(name)
    ensures IsPlain(Entry(name))
  {
    FirstPart(name);
  }

  /** On names without a separator the check is what the documentation says, and the name is
      its own entry. */
  lemma PlainNames(name: string)
    requires '/' !in name
    ensures IsSafe(name) <==> IsPlain(name)
    ensures Entry(name) == name
  {
    SplitCons(name, "", '/');
  }

  /** Only `.` and empty components. */
  predicate Vanishes(parts: seq<string>) {
    forall i :: 0 <= i < |parts| ==> parts[i] == "" || parts[i] == "."
  }

  lemma {:induction false} LaterVanishes(parts: seq<string>)
    ensures Later(parts) == [] <==> Vanishes(parts)
  {
    if parts != [] {
      LaterVanishes(parts[1..]);
      assert parts == [parts[0]] + parts[1..];
    }
  }

  /** Names with a separator: accepted exactly when everything after a plain first component
      vanishes. They are aliases, never equal to the entry they resolve to. */
  lemma SeparatorNames(name: string)
    requires '/' in name
    ensures IsSafe(name) <==> IsPlain(Entry(name)) && Vanishes(Split(name, '/')[1..])
    ensures Entry(name) != name
  {
    LaterVanishes(Split(name, '/')[1..]);
    if name[0] == '/' {
      assert Entry(name) == "";
    } else {
      FirstPart(name);
    }
  }

  /** The check lets a trailing separator through. */
  lemma TrailingSeparatorIsSafe()
    ensures IsSafe("a/") && Entry("a/") == "a"
    ensures IsSafe("a/.") && Entry("a/.") == "a"
  {
    SplitCons("a", "", '/');
    SplitCons("a", ".", '/');
    SplitCons(".", "", '/');
    assert "a" + "/" + "" == "a/" && "a" + "/" + "." == "a/.";
    assert (["a"] + [""])[1..] == [""] && (["a"] + ["."])[1..] == ["."];
    assert [""][1..] == [] && ["."][1..] == [];
  }
}
