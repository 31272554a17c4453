/**
 * The URL cache of `cache.py`: the set of article URLs already published,
 * kept in memory and mirrored by an append-only text file with one URL per
 * line. The file is read lazily, once, on first use.
 *
 * The file is modelled as its sequence of lines (without the line
 * terminator); `None` stands for a file that does not exist.
 */
module Cache {
  import opened Wrappers
  import opened Text

  /** The URL one line contributes on reading: the stripped line, unless blank. */
  function LineUrls(line: string): set<string> {
    if Strip(line) == [] then {} else {Strip(line)}
  }

  /** `set(line.strip() for line in f if line.strip())`. */
  function Loaded(lines: seq<string>): (urls: set<string>)
    ensures forall u :: u in urls ==> u != [] && IsStripped(u)
    ensures |lines| == 0 ==> urls == {}
  {
    if lines == [] then {}
    else Loaded(lines[..|lines| - 1]) + LineUrls(lines[|lines| - 1])
  }

  /** A URL is loaded exactly when it is the stripped form of some non-blank line. */
  lemma {:induction false} LoadedIff(lines: seq<string>, u: string)
    ensures u in Loaded(lines) <==> u != [] && exists i :: 0 <= i < |lines| && Strip(lines[i]) == u
  {
    if lines != [] {
      var init := lines[..|lines| - 1];
      LoadedIff(init, u);
      assert forall i :: 0 <= i < |init| ==> init[i] == lines[i];
    }
  }

  /** The lines of the file; an absent file reads as no lines. */
  function FileLines(file: Option<seq<string>>): seq<string> {
    file.GetOr([])
  }

  /** What a fresh `load` reads: the file's URLs, or the empty set if there is no file. */
  function LoadFile(file: Option<seq<string>>): (urls: set<string>)
    ensures file.None? ==> urls == {}
    ensures forall u :: u in urls ==> u != [] && IsStripped(u)
  {
    match file
    case None => {}
    case Some(lines) => Loaded(lines)
  }

  /** A fresh load holds exactly the stripped non-blank lines of the file,
      and nothing when the file is missing. */
  lemma LoadFileIff(file: Option<seq<string>>, u: string)
    ensures u in LoadFile(file) <==>
      file.Some? && u != [] && exists i :: 0 <= i < |file.value| && Strip(file.value[i]) == u
  {
    if file.Some? {
      LoadedIff(file.value, u);
    }
  }

  /** The set a fresh load would see for these in-memory URLs: each stripped, blanks dropped. */
  function StripAll(urls: set<string>): set<string> {
    set u | u in urls && Strip(u) != [] :: Strip(u)
  }

  /** Appending one line adds exactly what that line reads as. */
  lemma LoadedAppend(lines: seq<string>, u: string)
    ensures Loaded(lines + [u]) == Loaded(lines) + LineUrls(u)
  {
    assert (lines + [u])[..|lines|] == lines;
  }

  /** Every URL read from the file is already stripped and non-blank. */
  lemma StripAllLoaded(lines: seq<string>)
    ensures StripAll(Loaded(lines)) == Loaded(lines)
  {
    forall u | u in Loaded(lines) ensures Strip(u) == u {
      LoadedIff(lines, u);
      var i :| 0 <= i < |lines| && Strip(lines[i]) == u;
      StripIdempotent(lines[i]);
    }
  }

  lemma StripAllAdd(urls: set<string>, u: string)
    ensures StripAll(urls + {u}) == StripAll(urls) + LineUrls(u)
  {
  }

  /** Adding a URL to the set and appending it to the file keeps the file
      a mirror of the set. */
  lemma AppendKeepsMirror(file: Option<seq<string>>, urls: set<string>, u: string)
    requires LoadFile(file) == StripAll(urls)
    ensures LoadFile(Some(FileLines(file) + [u])) == StripAll(urls + {u})
  {
    assert LoadFile(file) == Loaded(FileLines(file));
    LoadedAppend(FileLines(file), u);
    StripAllAdd(urls, u);
  }

  /** A stripped, non-blank URL of the set is in what a fresh load of a file
      mirroring that set reads. */
  lemma MirroredUrl(file: Option<seq<string>>, urls: set<string>, u: string)
    requires LoadFile(file) == StripAll(urls)
    requires u in urls && u != [] && IsStripped(u)
    ensures u in LoadFile(file)
  {
    StripOfStripped(u);
  }

  /** A URL that is stripped, non-blank and free of line breaks is read back
      from the line it was written to. */
  lemma {:induction false} ReloadSeesAppended(lines: seq<string>, u: string)
    requires Strip(u) == u && u != [] && '\n' !in u && '\r' !in u
    ensures u in Loaded(lines + [u])
  {
    LoadedAppend(lines, u);
  }

  /** A URL with surrounding whitespace is written, but never read back as itself. */
  lemma PaddedUrlNotReloaded()
    ensures " https://d2.naver.com/helloworld/1" !in Loaded([" https://d2.naver.com/helloworld/1"])
  {
    var u := " https://d2.naver.com/helloworld/1";
    assert LStrip(u) == u[1..];
    assert Strip(u) == u[1..];
  }

  class URLCache {
    /** The cache file on disk; `None` when it does not exist. */
    var file: Option<seq<string>>
    /** `_urls`: the in-memory set. */
    var urls: set<string>
    /** `_loaded`: whether the file has been read. */
    var loaded: bool

    /** Once loaded, re-reading the file would give back the in-memory set (up to strip). */
    ghost predicate Valid()
      reads this
    {
      loaded ==> LoadFile(file) == StripAll(urls)
    }

    /** The set every query answers from: the in-memory set once loaded, the file before. */
    function Contents(): set<string>
      reads this
    {
      if loaded then urls else LoadFile(file)
    }

    constructor (file: Option<seq<string>>)
      ensures Valid()
      ensures this.file == file && urls == {} && !loaded
      ensures Contents() == LoadFile(file)
    {
      this.file := file;
      urls := {};
      loaded := false;
    }

    /** `load`: reads the file only the first time; afterwards returns the set unchanged. */
    method Load() returns (r: set<string>)
      requires Valid()
      modifies this
      ensures Valid() && loaded && file == old(file)
      ensures r == urls && Contents() == old(Contents())
      ensures old(loaded) ==> urls == old(urls)
      ensures !old(loaded) ==> urls == LoadFile(file)
    {
      if loaded {
        return urls;
      }
      match file {
        case Some(lines) =>
          urls := Loaded(lines);
          StripAllLoaded(lines);
        case None =>
          urls := {};
      }
      loaded := true;
      r := urls;
    }

    /** `contains`: loads first if needed; answers membership without other change. */
    method Contains(u: string) returns (b: bool)
      requires Valid()
      modifies this
      ensures Valid() && loaded && file == old(file)
      ensures Contents() == old(Contents())
      ensures b <==> u in old(Contents())
    {
      if !loaded {
        var _ := Load();
      }
      b := u in urls;
    }

    /** `add`: a known URL changes nothing; a new one joins the set and is appended as one line. */
    method Add(u: string)
      requires Valid()
      modifies this
      ensures Valid() && loaded
      ensures Contents() == old(Contents()) + {u}
      ensures u in old(Contents()) ==> file == old(file)
      ensures u !in old(Contents()) ==> file == Some(FileLines(old(file)) + [u])
    {
      if !loaded {
        var _ := Load();
      }
      if u !in urls {
        AppendKeepsMirror(file, urls, u);
        urls := urls + {u};
        file := Some(FileLines(file) + [u]);
      }
    }

    /** `__len__`: the number of cached URLs, loading first if needed. */
    method Size() returns (n: nat)
      requires Valid()
      modifies this
      ensures Valid() && loaded && file == old(file)
      ensures Contents() == old(Contents())
      ensures n == |old(Contents())|
    {
      if !loaded {
        var _ := Load();
      }
      n := |urls|;
    }

    /** `__contains__`: the `in` operator, answered by `Contains`. */
    method Has(u: string) returns (b: bool)
      requires Valid()
      modifies this
      ensures Valid() && loaded && file == old(file)
      ensures Contents() == old(Contents())
      ensures b <==> u in old(Contents())
    {
      b := Contains(u);
    }
  }
}
