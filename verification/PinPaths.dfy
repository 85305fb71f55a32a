/** Paths of pins: a protocol, and after an "@" the id of the pin they refer to. */
module PinPaths {
  import opened Wrappers
  import opened GoStrings

  /** A path begins with its protocol: trimming leaves what stands before the target. */
  lemma BaseStays(base: string, rest: string)
    requires base != "" && !IsSpace(base[0]) && '@' !in base
    ensures var t := TrimRight(TrimSpace(base + "@" + rest), c => c == '/');
            base + "@" <= t && Index(t, '@') == Some(|base|)
  {
    hide TrimRight, TrimLeft, Index;
    var path := base + "@" + rest;
    assert path[0] == base[0] && path[|base|] == '@';
    var u := TrimLeft(path, IsSpace);
    TrimmedLeft(path, IsSpace);
    assert u == path;
    var v := TrimRight(u, IsSpace);
    TrimmedRight(u, IsSpace);
    assert |v| > |base|;
    var t := TrimRight(v, c => c == '/');
    TrimmedRight(v, c => c == '/');
    assert |t| > |base|;
    assert t[..|base| + 1] == base + "@";
    FirstIndex(t, |base|, '@');
  }

  lemma OneSlash(base: string)
    requires base != "" && base[|base| - 1] != '/'
    ensures TrimRight(base + "/", c => c == '/') == base
  {
    assert (base + "/")[..|base|] == base;
    NothingToCut(base);
  }

  /** An id without blanks and slashes at its ends, and without a leading "@". */
  predicate PlainId(id: string)
  {
    id != "" && !Blank(id[0]) && !Blank(id[|id| - 1]) && id[0] != '/' && id[|id| - 1] != '/' && id[0] != '@'
  }

  lemma NoSlashes(id: string)
    requires PlainId(id)
    ensures TrimRight(TrimLeft(id, c => c == '/'), c => c == '/') == id
  {
    assert TrimLeft(id, c => c == '/') == id;
    NothingToCut(id);
  }
}
