/**
 * The metadata resolver: `parseFileInfo` turns the one-line output of
 * `eos file info <target> -m` into a `Metadata` record.
 *
 * The line is a space-separated list of `key=value` tokens. The value of
 * `file` is a path that may itself contain spaces, so after the tokens are
 * read into a map the path is cut out of the raw line by offset, using the
 * byte length announced by the `keylength.file` token that starts the line.
 */
module FileInfo {
  import opened GoStrings
  import opened Common

  /** The resolved state of one EOS file or folder (Go's `Metadata` struct). */
  datatype Metadata = Metadata(inode: Int64, path: string, uid: string, gid: string, size: Int64)

  const KeyLengthKey: string := "keylength.file"
  const FileKey: string := "file"
  const InodeKey: string := "ino"
  const SizeKey: string := "size"
  const UidKey: string := "uid"
  const GidKey: string := "gid"

  /**
   * Where the path starts, given the text of the `keylength.file` value:
   * 14 characters of "keylength.file", then the value, then the 7
   * characters of "=" and " file=".
   */
  function PathStart(fileLength: string): nat
  {
    14 + |fileLength| + 7
  }

  /** A token that splits on '=' into exactly `key` and one value. */
  predicate Declares(token: string, key: string)
  {
    var parts := Split(token, '=');
    |parts| == 2 && parts[0] == key
  }

  /** One step of the token loop: a token of exactly two '='-parts is stored, others are ignored. */
  function Enter(kv: map<string, string>, token: string): map<string, string>
  {
    var parts := Split(token, '=');
    if |parts| == 2 then kv[parts[0] := parts[1]] else kv
  }

  /** The map the token loop builds from `tokens`, in order (a later token overwrites an earlier one). */
  function KeyValues(tokens: seq<string>): map<string, string>
  {
    if tokens == [] then map[] else Enter(KeyValues(tokens[..|tokens| - 1]), tokens[|tokens| - 1])
  }

  /** A Go map read: the empty string for a missing key. */
  function Get(kv: map<string, string>, key: string): string
  {
    if key in kv then kv[key] else ""
  }

  /** The key/value map read from a raw `file info` line. */
  function Fields(raw: string): map<string, string>
  {
    KeyValues(Split(raw, ' '))
  }

  /**
   * `parseFileInfo`. The Go slice `raw[start:end]` panics when the range is
   * out of bounds; here that is the error `SliceOutOfRange`.
   */
  function Parse(raw: string): (r: Result<Metadata>)
    ensures var kv := Fields(raw);
            var fileLength := Get(kv, KeyLengthKey);
            && (r.Ok? ==> ParseInt(fileLength).err == NoError && ParseInt(Get(kv, InodeKey)).err == NoError)
            && (r.Ok? ==> var start := PathStart(fileLength);
                          var end := start + ParseInt(fileLength).value;
                          start <= end <= |raw| && r.value.path == raw[start..end])
            && (r.Ok? ==> r.value.inode == ParseInt(Get(kv, InodeKey)).value)
            && (r.Ok? ==> r.value.uid == Get(kv, UidKey) && r.value.gid == Get(kv, GidKey))
            // the size is whatever `ParseInt` gives, its error ignored: 0 when missing or not a number
            && (r.Ok? ==> r.value.size == ParseInt(Get(kv, SizeKey)).value)
            && (r.Ok? && ParseInt(Get(kv, SizeKey)).err == ErrSyntax ==> r.value.size == 0)
            && (r.Ok? && SizeKey !in kv ==> r.value.size == 0)
            // success depends on the announced length, the slice and `ino` only, never on `size`
            && (r.Ok? <==> && ParseInt(fileLength).err == NoError
                           && PathStart(fileLength) + ParseInt(fileLength).value <= |raw|
                           && 0 <= ParseInt(fileLength).value
                           && ParseInt(Get(kv, InodeKey)).err == NoError)
            && (KeyLengthKey !in kv ==> r == Err(InvalidNumber("", ErrSyntax)))
            && (KeyLengthKey in kv && InodeKey !in kv ==> r.Err?)
  {
    var kv := Fields(raw);
    var fileLength := Get(kv, KeyLengthKey);
    var length := ParseInt(fileLength);
    if length.err != NoError then Err(InvalidNumber(fileLength, length.err))
    else
      var start := PathStart(fileLength);
      var end := start + length.value;
      if !(start <= end <= |raw|) then Err(SliceOutOfRange(start, end, |raw|))
      else
        var kv' := kv[FileKey := raw[start..end]];
        var inode := ParseInt(Get(kv', InodeKey));
        if inode.err != NoError then Err(InvalidNumber(Get(kv', InodeKey), inode.err))
        else
          var size := ParseInt(Get(kv', SizeKey));
          Ok(Metadata(inode.value, kv'[FileKey], Get(kv', UidKey), Get(kv', GidKey), size.value))
  }

  /**
   * `parseFileInfo`, step by step: a loop that fills a map from
   * the space-separated tokens, then the path fix-up and the number parsing.
   */
  method ParseFileInfo(raw: string) returns (r: Result<Metadata>)
    ensures r == Parse(raw)
  {
    var kv := ReadKeyValues(Split(raw, ' '));
    var fileLength := Get(kv, KeyLengthKey);
    var fileLengthInt := ParseInt(fileLength);
    if fileLengthInt.err != NoError {
      return Err(InvalidNumber(fileLength, fileLengthInt.err));
    }
    var startIndex := 14 + |fileLength| + 7;
    var endIndex := startIndex + fileLengthInt.value;
    if !(0 <= startIndex <= endIndex <= |raw|) {
      return Err(SliceOutOfRange(startIndex, endIndex, |raw|));
    }
    kv := kv[FileKey := raw[startIndex..endIndex]];
    var inode := ParseInt(Get(kv, InodeKey));
    if inode.err != NoError {
      return Err(InvalidNumber(Get(kv, InodeKey), inode.err));
    }
    var size := ParseInt(Get(kv, SizeKey));
    r := Ok(Metadata(inode.value, kv[FileKey], Get(kv, UidKey), Get(kv, GidKey), size.value));
  }

  /** The token loop of `parseFileInfo`: each token of exactly two '='-parts is stored in the map. */
  method ReadKeyValues(partsBySpace: seq<string>) returns (kv: map<string, string>)
    ensures kv == KeyValues(partsBySpace)
  {
    kv := map[];
    for i := 0 to |partsBySpace|
      invariant kv == KeyValues(partsBySpace[..i])
    {
      var partsByEqual := Split(partsBySpace[i], '=');
      if |partsByEqual| == 2 {
        kv := kv[partsByEqual[0] := partsByEqual[1]];
      }
      assert partsBySpace[..i + 1][..i] == partsBySpace[..i];
    }
    assert partsBySpace[..|partsBySpace|] == partsBySpace;
  }

  /**
   * Only tokens of exactly two '='-parts enter the map, and for each key
   * the last token that declares it wins.
   */
  lemma {:induction false} KeyValuesLastWins(tokens: seq<string>, key: string)
    ensures key in KeyValues(tokens) <==> exists i :: 0 <= i < |tokens| && Declares(tokens[i], key)
    ensures forall i :: 0 <= i < |tokens| && Declares(tokens[i], key)
                     && (forall j :: i < j < |tokens| ==> !Declares(tokens[j], key))
                     ==> key in KeyValues(tokens) && KeyValues(tokens)[key] == Split(tokens[i], '=')[1]
    decreases |tokens|
  {
    if tokens != [] {
      var init := tokens[..|tokens| - 1];
      KeyValuesLastWins(init, key);
      forall i | 0 <= i < |init| ensures init[i] == tokens[i] { }
    }
  }

  /** Tokens that do not declare `key` leave its entry as it was. */
  lemma {:induction false} KeyValuesUndeclared(front: seq<string>, back: seq<string>, key: string)
    requires forall t <- back :: !Declares(t, key)
    ensures (key in KeyValues(front + back)) == (key in KeyValues(front))
    ensures key in KeyValues(front) ==> KeyValues(front + back)[key] == KeyValues(front)[key]
    decreases |back|
  {
    var tokens := front + back;
    if back == [] {
      assert tokens == front;
    } else {
      var last := back[|back| - 1];
      assert tokens[..|tokens| - 1] == front + back[..|back| - 1];
      assert tokens[|tokens| - 1] == last;
      assert !Declares(last, key);
      KeyValuesUndeclared(front, back[..|back| - 1], key);
    }
  }

  /**
   * The path survives embedded spaces: for a line that starts with
   * `keylength.file=<n> file=` followed by an `n`-character path, the
   * parsed path is exactly that path, and the only way parsing can fail is
   * a missing or malformed `ino`. It needs that no later token declares
   * `keylength.file` again, since the map keeps the last declaration.
   */
  lemma ParseRecoversPath(n: nat, path: string, rest: string)
    requires n <= MaxInt64 && |path| == n
    requires forall t <- Split(FileKey + "=" + path + rest, ' ') :: !Declares(t, KeyLengthKey)
    ensures var raw := KeyLengthKey + "=" + FormatInt(n) + " " + FileKey + "=" + path + rest;
            && (Parse(raw).Ok? ==> Parse(raw).value.path == path)
            && (Parse(raw).Err? ==> Parse(raw).error.InvalidNumber? && Parse(raw).error.input == Get(Fields(raw), InodeKey))
  {
    var digits := FormatInt(n);
    var raw := KeyLengthKey + "=" + FormatInt(n) + " " + FileKey + "=" + path + rest;
    LeadingKeyLength(digits, FileKey + "=" + path + rest);
    assert raw == KeyLengthKey + "=" + digits + " " + (FileKey + "=" + path + rest);
    ParseFormatInt(n);
    assert raw[PathStart(digits)..PathStart(digits) + n] == path;
  }

  /** A line whose first token is `keylength.file=<digits>` announces that length, if nothing later overrides it. */
  lemma LeadingKeyLength(digits: string, tail: string)
    requires forall ch <- digits :: IsDigit(ch)
    requires forall t <- Split(tail, ' ') :: !Declares(t, KeyLengthKey)
    ensures Get(Fields(KeyLengthKey + "=" + digits + " " + tail), KeyLengthKey) == digits
  {
    var first := KeyLengthKey + "=" + digits;
    KeyLengthToken(digits);
    assert KeyLengthKey + "=" + digits + " " + tail == first + " " + tail;
    SplitNoSep(first, ' ');
    SplitConcat(first, tail, ' ');
    assert KeyValues([first]) == map[KeyLengthKey := digits] by {
      assert [first][..0] == [];
    }
    KeyValuesUndeclared([first], Split(tail, ' '), KeyLengthKey);
  }

  /** The token `keylength.file=<digits>` declares the key with the digits as value. */
  lemma KeyLengthToken(digits: string)
    requires forall ch <- digits :: IsDigit(ch)
    ensures var first := KeyLengthKey + "=" + digits;
            ' ' !in first && Split(first, '=') == [KeyLengthKey, digits]
  {
    var first := KeyLengthKey + "=" + digits;
    assert ' ' !in first by {
      assert forall ch <- digits :: ch != ' ';
    }
    assert Split(first, '=') == [KeyLengthKey, digits] by {
      assert '=' !in digits;
      KeyValueToken(KeyLengthKey, digits);
    }
  }

  /** A `key=value` token without other '=' splits into the key and the value. */
  lemma KeyValueToken(key: string, value: string)
    requires '=' !in key && '=' !in value
    ensures Split(key + "=" + value, '=') == [key, value]
  {
    SplitNoSep(key, '=');
    SplitNoSep(value, '=');
    SplitConcat(key, value, '=');
  }
}
