/** Cache folder names for model repositories, and why they can be read back. */
module RepoFolder {
  import opened Splitting

  predicate IsAlphanum(c: char) {
    'A' <= c <= 'Z' || 'a' <= c <= 'z' || '0' <= c <= '9'
  }

  predicate IsBase(c: char) {
    IsAlphanum(c) || c == '_'
  }

  predicate IsSpecial(c: char) {
    c == '/' || c == '.' || c == '-'
  }

  function Slashes(s: string): nat {
    if s == [] then 0 else Slashes(s[..|s| - 1]) + (if s[|s| - 1] == '/' then 1 else 0)
  }

  /** Base characters, with single special characters between them, exactly one of which is a slash. */
  ghost predicate IsRepoId(s: string) {
    && 1 <= |s| <= 256
    && (forall i :: 0 <= i < |s| ==> IsBase(s[i]) || IsSpecial(s[i]))
    && (forall i :: 0 <= i < |s| && IsSpecial(s[i]) ==> 0 < i < |s| - 1 && IsBase(s[i - 1]) && IsBase(s[i + 1]))
    && Slashes(s) == 1
  }

  method IsValidRepoId(s: string) returns (valid: bool)
    ensures valid == IsRepoId(s)
  {
    if s == [] || |s| > 256 {
      return false;
    }
    var slash, special := 0, true;
    for i := 0 to |s|
      invariant slash == Slashes(s[..i])
      invariant special == (i == 0 || IsSpecial(s[i - 1]))
      invariant forall j :: 0 <= j < i ==> IsBase(s[j]) || IsSpecial(s[j])
      invariant forall j :: 0 <= j < i && IsSpecial(s[j]) ==> 0 < j && IsBase(s[j - 1]) && (j + 1 < i ==> IsBase(s[j + 1]))
    {
      var c := s[i];
      assert s[..i + 1][..i] == s[..i];
      if IsAlphanum(c) || c == '_' {
        special := false;
      } else if IsSpecial(c) {
        if special {
          return false;
        }
        slash := slash + if c == '/' then 1 else 0;
        special := true;
      } else {
        return false;
      }
    }
    assert s[..|s|] == s;
    return !special && slash == 1;
  }

  const PREFIX := "models--"

  function RepoToFolder(repo: string): string {
    ReplaceAll(PREFIX + repo, "/", "--")
  }

  function FolderToRepo(folder: string): string {
    if PREFIX <= folder then ReplaceAll(folder[|PREFIX|..], "--", "/") else []
  }

  method RepoToFolderName(repo: string) returns (folder: string)
    ensures folder == RepoToFolder(repo)
  {
    folder := StringReplaceAll(PREFIX + repo, "/", "--");
  }

  method FolderNameToRepo(folder: string) returns (repo: string)
    ensures repo == FolderToRepo(folder)
  {
    if !(PREFIX <= folder) {
      return [];
    }
    repo := StringReplaceAll(folder[|PREFIX|..], "--", "/");
  }

  // ----- Reading a folder name back -------------------------------------------

  function Expand(s: string): string {
    ReplaceAll(s, "/", "--")
  }

  function Collapse(s: string): string {
    ReplaceAll(s, "--", "/")
  }

  lemma ExpandStep(s: string)
    requires s != []
    ensures Expand(s) == (if s[0] == '/' then "--" else [s[0]]) + Expand(s[1..])
  {
    ReplaceFromLeft(s, "/", "--");
    assert s[..1] == [s[0]];
  }

  lemma CollapseStep(s: string)
    requires s != []
    ensures Collapse(s) ==
            if |s| > 1 && s[0] == '-' && s[1] == '-' then "/" + Collapse(s[2..]) else [s[0]] + Collapse(s[1..])
  {
    hide ReplaceAll;
    ReplaceFromLeft(s, "--", "/");
    if |s| > 1 {
      assert s[..2] == [s[0], s[1]];
    }
  }

  /** A dash is never followed by another dash or by a slash. */
  ghost predicate DashesStandAlone(s: string) {
    forall i :: 0 <= i < |s| - 1 && s[i] == '-' ==> s[i + 1] != '-' && s[i + 1] != '/'
  }

  lemma {:induction false} CollapseExpand(s: string)
    ensures Collapse(Expand(s)) == s <==> DashesStandAlone(s)
  {
    hide ReplaceAll;
    if s == [] {
      EmptyReplaced();
    } else {
      var rest := s[1..];
      CollapseExpand(rest);
      ExpandStep(s);
      var e := Expand(s);
      CollapseStep(e);
      assert s == [s[0]] + rest;
      TailStandsAlone(s);
      if s[0] == '/' {
        assert e[2..] == Expand(rest);
      } else {
        assert e[1..] == Expand(rest);
        if rest != [] {
          ExpandStep(rest);
        } else {
          EmptyReplaced();
        }
      }
    }
  }

  lemma EmptyReplaced()
    ensures Expand([]) == [] && Collapse([]) == []
  {
  }

  lemma TailStandsAlone(s: string)
    requires s != []
    ensures DashesStandAlone(s) <==>
            DashesStandAlone(s[1..]) && (s[0] == '-' && |s| > 1 ==> s[1] != '-' && s[1] != '/')
  {
    if DashesStandAlone(s[1..]) {
      forall i | 0 < i < |s| - 1 && s[i] == '-' ensures s[i + 1] != '-' && s[i + 1] != '/' {
        assert s[1..][i - 1] == s[i] && s[1..][i - 1 + 1] == s[i + 1];
      }
    }
    if DashesStandAlone(s) {
      forall i | 0 <= i < |s[1..]| - 1 && s[1..][i] == '-' ensures s[1..][i + 1] != '-' && s[1..][i + 1] != '/' {
        assert s[i + 1] == s[1..][i] && s[i + 1 + 1] == s[1..][i + 1];
      }
    }
  }

  lemma {:induction false} ExpandKeepsFront(p: string, s: string)
    requires forall i :: 0 <= i < |p| ==> p[i] != '/'
    ensures Expand(p + s) == p + Expand(s)
  {
    hide Expand;
    if p == [] {
      assert p + s == s && p + Expand(s) == Expand(s);
    } else {
      ExpandStep(p + s);
      assert (p + s)[1..] == p[1..] + s;
      ExpandKeepsFront(p[1..], s);
      assert [p[0]] + (p[1..] + Expand(s)) == p + Expand(s);
    }
  }

  /** The folder name leads back to the repository exactly when no dash is followed by a dash or a slash. */
  lemma FolderNameRoundTrip(repo: string)
    ensures FolderToRepo(RepoToFolder(repo)) == repo <==> DashesStandAlone(repo)
  {
    ExpandKeepsFront(PREFIX, repo);
    assert RepoToFolder(repo) == PREFIX + Expand(repo);
    assert (PREFIX + Expand(repo))[|PREFIX|..] == Expand(repo);
    CollapseExpand(repo);
  }

  /** Valid repositories can be read back. */
  lemma ValidRepoRoundTrip(repo: string)
    requires IsRepoId(repo)
    ensures FolderToRepo(RepoToFolder(repo)) == repo
  {
    FolderNameRoundTrip(repo);
    forall i | 0 <= i < |repo| - 1 && repo[i] == '-' ensures repo[i + 1] != '-' && repo[i + 1] != '/' {
      assert IsSpecial(repo[i]);
    }
  }

  /** Two valid repositories never share a folder. */
  lemma ValidReposHaveOwnFolders(a: string, b: string)
    requires IsRepoId(a) && IsRepoId(b) && RepoToFolder(a) == RepoToFolder(b)
    ensures a == b
  {
    ValidRepoRoundTrip(a);
    ValidRepoRoundTrip(b);
  }

  /** A slash separates owner and name, each with a front of its own in the folder name. */
  lemma FolderNameSpelled(owner: string, name: string)
    requires forall i :: 0 <= i < |owner| ==> owner[i] != '/'
    requires forall i :: 0 <= i < |name| ==> name[i] != '/'
    ensures RepoToFolder(owner + "/" + name) == "models--" + owner + "--" + name
  {
    var repo := owner + ("/" + name);
    ExpandKeepsFront(PREFIX, repo);
    ExpandKeepsFront(owner, "/" + name);
    ExpandStep("/" + name);
    assert ("/" + name)[1..] == name;
    ExpandKeepsFront(name, []);
    EmptyReplaced();
    assert name + [] == name;
    assert owner + "/" + name == repo;
    hide Expand, ReplaceAll;
    Together(PREFIX, owner, name);
  }

  lemma Together(front: string, owner: string, name: string)
    ensures front + (owner + ("--" + name)) == front + owner + "--" + name
  {
  }

  /** Which characters a name may have. */
  lemma CharactersSpelled(c: char)
    ensures IsBase(c) <==> 'A' <= c <= 'Z' || 'a' <= c <= 'z' || '0' <= c <= '9' || c == '_'
    ensures IsSpecial(c) <==> c in {'/', '.', '-'}
  {
  }
}
