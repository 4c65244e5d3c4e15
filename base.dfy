/** Result and error types shared by every part of the model.  Go returns
    `(value, error)` pairs and uses the zero value on the error path; here an
    operation that can fail returns a `Result`. */
module Base {

  datatype Option<+T> = None | Some(value: T)

  /** The failures the core reports, one constructor per distinct error the
      Go code creates or propagates. */
  datatype Error =
    | InvalidLbryUrl      // "invalid lbry url"
    | ChannelNotStream    // "invalid url for repo.  Url may refer to a channel ..."
    | BundleNotFound      // BundleNotFoundErr, the end of the bundle chain
    | NetworkFailure      // an RPC to the LBRY daemon failed
    | IoFailure           // a local file could not be read or written
    | CommandFailed       // a `git` subprocess exited with an error
    | ShowRefFormat       // "unexpected format while parsing output of git show-ref"
    | HexDecode           // encoding/hex rejected the input
    | ShaLength           // "error decoding sha hash, bad length"
    | PushParse           // "error parsing push command"
    | NoPushAuthor        // "before pushing need to set author ..."
    | NoCurrentUser       // "Cannot create repo, please set the current user ..."
    | ExpectedChannel     // "Expected Channel Url, got Stream Url"
    | OptionParse         // "error parsing option command"
    | InputEnded          // reading the next protocol line failed

  datatype Result<+T> = Ok(value: T) | Err(error: Error)

  /** The results gathered so far in front of what the rest of a loop
      gives; an error from the rest is the outcome. */
  function Prepend<T>(done: seq<T>, rest: Result<seq<T>>): Result<seq<T>> {
    match rest
    case Err(e) => Err(e)
    case Ok(v) => Ok(done + v)
  }

  /** Every line parsed in order with `parse`; the first line that fails
      decides the error. */
  function ParseEach<T>(lines: seq<string>, parse: string -> Result<T>): (r: Result<seq<T>>)
    ensures r.Ok? <==> forall i :: 0 <= i < |lines| ==> parse(lines[i]).Ok?
    ensures r.Ok? ==> |r.value| == |lines| && forall i :: 0 <= i < |lines| ==> parse(lines[i]) == Ok(r.value[i])
    ensures r.Err? ==> exists i :: 0 <= i < |lines| && parse(lines[i]) == Err(r.error)
                                   && forall j :: 0 <= j < i ==> parse(lines[j]).Ok?
  {
    if |lines| == 0 then Ok([])
    else
      match parse(lines[0])
      case Err(e) => Err(e)
      case Ok(v) =>
        match ParseEach(lines[1..], parse)
        case Err(e) =>
          var k :| 0 <= k < |lines[1..]| && parse(lines[1..][k]) == Err(e)
                   && forall j :: 0 <= j < k ==> parse(lines[1..][j]).Ok?;
          assert parse(lines[k + 1]) == Err(e);
          assert forall j :: 0 <= j < k + 1 ==> parse(lines[j]).Ok? by {
            forall j | 0 <= j < k + 1 ensures parse(lines[j]).Ok? {
              if j > 0 { assert lines[j] == lines[1..][j - 1]; }
            }
          }
          Err(e)
        case Ok(rest) => Ok([v] + rest)
  }

  /** One more line of a parsing loop: the gathered values take it on, or
      its error becomes the outcome. */
  lemma ParseEachStep<T>(lines: seq<string>, parse: string -> Result<T>, i: nat, done: seq<T>)
    requires i < |lines|
    ensures parse(lines[i]).Err? ==> Prepend(done, ParseEach(lines[i..], parse)) == Err(parse(lines[i]).error)
    ensures parse(lines[i]).Ok? ==>
      Prepend(done, ParseEach(lines[i..], parse)) == Prepend(done + [parse(lines[i]).value], ParseEach(lines[i + 1..], parse))
  {
    assert lines[i..][0] == lines[i] && lines[i..][1..] == lines[i + 1..];
    var rest := ParseEach(lines[i + 1..], parse);
    if parse(lines[i]).Ok? && rest.Ok? {
      var v := parse(lines[i]).value;
      assert done + ([v] + rest.value) == (done + [v]) + rest.value;
    }
  }
}
