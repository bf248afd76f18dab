// The artifact file name the client derives from a page URL
// (client/utils.py, url_to_filename). The URL arrives already split into its
// network location and its path, as urllib.parse.urlparse yields them.
module Filenames {

  /** Python's s.replace(from, to) for single characters: every `from` becomes `to`. */
  function Replace(s: string, from: char, to: char): string
  {
    if s == [] then []
    else [if s[0] == from then to else s[0]] + Replace(s[1..], from, to)
  }

  /** Replacing keeps the length and changes exactly the occurrences of `from`. */
  lemma {:induction false} ReplaceMeaning(s: string, from: char, to: char)
    ensures |Replace(s, from, to)| == |s|
    ensures forall i :: 0 <= i < |s| ==> Replace(s, from, to)[i] == (if s[i] == from then to else s[i])
  {
    if s != [] {
      ReplaceMeaning(s[1..], from, to);
    }
  }

  /** The marker that stands for an empty path. */
  const IndexMarker := "_index"

  /** The default extension of url_to_filename. */
  const DefaultExtension := ".html"

  /** The host part of the file name: the network location with dots made underscores. */
  function HostPart(netloc: string): string {
    Replace(netloc, '.', '_')
  }

  /** The path part: slashes made underscores, or the index marker when there is no path. */
  function PathPart(path: string): string {
    var p := Replace(path, '/', '_');
    if p == "" then IndexMarker else p
  }

  /** url_to_filename(url, extension): host part, path part, extension. */
  function UrlToFilename(netloc: string, path: string, extension: string := DefaultExtension): (r: string)
    ensures |r| == |netloc| + (if path == "" then |IndexMarker| else |path|) + |extension|
    ensures forall i :: 0 <= i < |netloc| ==> r[i] == (if netloc[i] == '.' then '_' else netloc[i])
    ensures forall i :: 0 <= i < |path| ==> r[|netloc| + i] == (if path[i] == '/' then '_' else path[i])
    ensures path == "" ==> r[|netloc|..|netloc| + |IndexMarker|] == IndexMarker
    ensures r[|r| - |extension|..] == extension
  {
    ReplaceMeaning(netloc, '.', '_');
    ReplaceMeaning(path, '/', '_');
    HostPart(netloc) + PathPart(path) + extension
  }

  /** Host a.b with no path gives the index file. */
  lemma EmptyPathIsIndex()
    ensures UrlToFilename("a.b", "") == "a_b_index.html"
  {
    assert HostPart("a.b") == "a_b";
  }

  /** The root path "/" is not empty: it becomes "_", not the index marker. */
  lemma RootPathIsNotIndex()
    ensures UrlToFilename("a.b", "/") == "a_b_.html"
  {
    assert HostPart("a.b") == "a_b";
    assert PathPart("/") == "_";
  }

  /** Dots in the path are kept, only its slashes change. */
  lemma PathDotsKept()
    ensures UrlToFilename("a.b", "/c.d", ".txt") == "a_b_c.d.txt"
  {
    assert HostPart("a.b") == "a_b";
    assert PathPart("/c.d") == "_c.d";
  }
}
