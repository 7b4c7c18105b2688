/**
 * The generic identifier controller: the commit history page, which decorates
 * each commit with a default message and a gitweb link, and the raw XML
 * update, which normalises line endings before writing and records a comment
 * only when the write succeeded.
 */
module IdentifiersController {
  import opened Common
  import opened Text
  import opened Comments

  const CR: char := '\r'
  const LF: char := '\n'

  /** `gsub(/\r\n?/, "\n")`: every CRLF pair and every lone CR becomes one LF. */
  function NormalizeLineEndings(s: string): (r: string)
    ensures CR !in r
    ensures |r| <= |s|
  {
    if s == [] then []
    else if s[0] == CR && |s| >= 2 && s[1] == LF then [LF] + NormalizeLineEndings(s[2..])
    else if s[0] == CR then [LF] + NormalizeLineEndings(s[1..])
    else [s[0]] + NormalizeLineEndings(s[1..])
  }

  /** Text without a carriage return is left as it is. */
  lemma {:induction false} NormalizeKeepsCrFree(s: string)
    requires CR !in s
    ensures NormalizeLineEndings(s) == s
  {
    if s != [] {
      assert CR !in s[1..] by {
        forall c | c in s[1..] ensures c != CR { }
      }
      NormalizeKeepsCrFree(s[1..]);
    }
  }

  /** Normalising twice is normalising once. */
  lemma NormalizeIdempotent(s: string)
    ensures NormalizeLineEndings(NormalizeLineEndings(s)) == NormalizeLineEndings(s)
  {
    NormalizeKeepsCrFree(NormalizeLineEndings(s));
  }

  /** A head without CR passes through unchanged: normalisation works left to right. */
  lemma {:induction false} NormalizeCrFreeHead(a: string, b: string)
    requires CR !in a
    ensures NormalizeLineEndings(a + b) == a + NormalizeLineEndings(b)
  {
    if a == [] {
      assert a + b == b;
    } else {
      assert (a + b)[0] == a[0] != CR;
      assert (a + b)[1..] == a[1..] + b;
      assert CR !in a[1..] by {
        forall c | c in a[1..] ensures c != CR { }
      }
      NormalizeCrFreeHead(a[1..], b);
      calc {
        NormalizeLineEndings(a + b);
        [a[0]] + NormalizeLineEndings(a[1..] + b);
        [a[0]] + a[1..] + NormalizeLineEndings(b);
        { assert a == [a[0]] + a[1..]; }
        a + NormalizeLineEndings(b);
      }
    }
  }

  /** A CRLF pair becomes one LF; the text before it stays and the rest is normalised. */
  lemma CrLfBecomesLf(a: string, b: string)
    requires CR !in a
    ensures NormalizeLineEndings(a + [CR, LF] + b) == a + [LF] + NormalizeLineEndings(b)
  {
    assert a + [CR, LF] + b == a + ([CR, LF] + b);
    NormalizeCrFreeHead(a, [CR, LF] + b);
    assert ([CR, LF] + b)[2..] == b;
  }

  /** A CR that is not followed by LF becomes one LF. */
  lemma LoneCrBecomesLf(a: string, b: string)
    requires CR !in a
    requires b == [] || b[0] != LF
    ensures NormalizeLineEndings(a + [CR] + b) == a + [LF] + NormalizeLineEndings(b)
  {
    assert a + [CR] + b == a + ([CR] + b);
    NormalizeCrFreeHead(a, [CR] + b);
    assert ([CR] + b)[1..] == b;
  }

  /** `s` without its line-break characters. */
  function Unbroken(s: string): string {
    if s == [] then []
    else (if s[0] == CR || s[0] == LF then [] else [s[0]]) + Unbroken(s[1..])
  }

  /** Normalisation touches line breaks only: every other character is kept, in order. */
  lemma {:induction false} NormalizeKeepsText(s: string)
    ensures Unbroken(NormalizeLineEndings(s)) == Unbroken(s)
  {
    if s != [] {
      if s[0] == CR && |s| >= 2 && s[1] == LF {
        NormalizeKeepsText(s[2..]);
        assert s[1..][1..] == s[2..];
        assert Unbroken([LF] + NormalizeLineEndings(s[2..])) == Unbroken(NormalizeLineEndings(s[2..])) by {
          assert ([LF] + NormalizeLineEndings(s[2..]))[1..] == NormalizeLineEndings(s[2..]);
        }
      } else {
        NormalizeKeepsText(s[1..]);
        var t := NormalizeLineEndings(s);
        assert t[1..] == NormalizeLineEndings(s[1..]);
      }
    }
  }

  /** `repository.path.sub(/^ROOT/, 'db/git')`: a leading repository root becomes `db/git`. */
  function RepositoryPath(path: string, root: string): (r: string)
    ensures StartsWith(path, root) ==> r == "db/git" + path[|root|..]
    ensures !StartsWith(path, root) ==> r == path
  {
    if StartsWith(path, root) then "db/git" + path[|root|..] else path
  }

  /** The gitweb commitdiff link of commit `id` in the repository at `path`. */
  function CommitUrl(gitwebBase: string, path: string, root: string, id: string): (r: string)
    ensures StartsWith(r, gitwebBase + RepositoryPath(path, root))
    ensures EndsWith(r, ";a=commitdiff;h=" + id)
    ensures |r| == |gitwebBase + RepositoryPath(path, root)| + |";a=commitdiff;h=" + id|
  {
    var prefix := gitwebBase + RepositoryPath(path, root);
    var r := prefix + ";a=commitdiff;h=" + id;
    assert r[..|prefix|] == prefix;
    assert r[|r| - |";a=commitdiff;h=" + id|..] == ";a=commitdiff;h=" + id;
    r
  }

  /** The link names the commit: two commits of one repository share a link only if they share an id. */
  lemma CommitUrlDeterminesId(gitwebBase: string, path: string, root: string, id1: string, id2: string)
    requires CommitUrl(gitwebBase, path, root, id1) == CommitUrl(gitwebBase, path, root, id2)
    ensures id1 == id2
  {
    var prefix := gitwebBase + RepositoryPath(path, root) + ";a=commitdiff;h=";
    assert CommitUrl(gitwebBase, path, root, id1) == prefix + id1;
    assert CommitUrl(gitwebBase, path, root, id2) == prefix + id2;
    assert id1 == (prefix + id1)[|prefix|..];
    assert id2 == (prefix + id2)[|prefix|..];
  }

  /** A commit as `get_commits` lists it. */
  datatype Commit = Commit(id: string, message: string, url: Option<string>)

  const NoMessage: string := "(no commit message)"

  /** A commit as the history page shows it. */
  function Decorate(c: Commit, gitwebBase: string, path: string, root: string): (r: Commit)
    ensures r.id == c.id
    ensures r.message != ""
    ensures c.message != "" ==> r.message == c.message
    ensures c.message == "" ==> r.message == NoMessage
    ensures r.url == Some(CommitUrl(gitwebBase, path, root, c.id))
  {
    Commit(c.id, if c.message == "" then NoMessage else c.message, Some(CommitUrl(gitwebBase, path, root, c.id)))
  }

  /** Decorating an entry a second time changes nothing. */
  lemma DecorateIdempotent(c: Commit, gitwebBase: string, path: string, root: string)
    ensures Decorate(Decorate(c, gitwebBase, path, root), gitwebBase, path, root) == Decorate(c, gitwebBase, path, root)
  {
  }

  /** `history`: each commit of the list is decorated in place; length and order stay. */
  method History(commits: array<Commit>, gitwebBase: string, path: string, root: string)
    modifies commits
    ensures forall i :: 0 <= i < commits.Length ==> commits[i] == Decorate(old(commits[i]), gitwebBase, path, root)
  {
    for i := 0 to commits.Length
      invariant forall j :: 0 <= j < i ==> commits[j] == Decorate(old(commits[j]), gitwebBase, path, root)
      invariant forall j :: i <= j < commits.Length ==> commits[j] == old(commits[j])
    {
      var c := commits[i];
      if c.message == "" {
        c := c.(message := NoMessage);
      }
      c := c.(url := Some(CommitUrl(gitwebBase, path, root, c.id)));
      commits[i] := c;
    }
  }

  /** The flash message an update leaves. */
  datatype Flash = Notice(notice: string) | Error(error: string)

  /**
   * `updatexml`: the submitted XML, with line endings normalised, goes to
   * `set_xml_content`, whose outcome is the parameter `setXmlContent` (the
   * parse error it raises, or `None` when the file was written).  Only after a
   * successful write is a non-blank comment recorded, attributed to the origin
   * identifier and origin publication with git hash "todo".
   */
  method UpdateXml(log: CommentLog, xmlContent: string, comment: Option<string>,
                   setXmlContent: string -> Option<string>,
                   userId: nat, originIdentifierId: nat, originPublicationId: nat)
    returns (flash: Flash)
    modifies log
    ensures var parseError := setXmlContent(NormalizeLineEndings(xmlContent));
            && (parseError.Some? ==> flash == Error(parseError.value) && log.comments == old(log.comments))
            && (parseError.None? ==> flash == Notice("File updated."))
    ensures var c := CommitComment(comment, "todo", userId, originIdentifierId, originPublicationId);
            setXmlContent(NormalizeLineEndings(xmlContent)).None? ==>
              log.comments == old(log.comments) + (if c.Some? then [c.value] else [])
  {
    var xml := NormalizeLineEndings(xmlContent);
    var parseError := setXmlContent(xml);
    if parseError.Some? {
      return Error(parseError.value);
    }
    log.SaveCommitComment(comment, "todo", userId, originIdentifierId, originPublicationId);
    return Notice("File updated.");
  }
}
