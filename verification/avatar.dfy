/**
 * The public id that `changeAvatar` asks the image host to delete: the part of
 * the stored avatar URL after its last '/', cut at its first '.'.
 */
module Avatar {

  /** `s.lastIndexOf(c)`: the position of the last `c` in `s`, or -1. */
  function LastIndexOf(s: string, c: char): (k: int)
    ensures -1 <= k < |s|
    ensures k >= 0 ==> s[k] == c
    ensures forall j :: k < j < |s| ==> s[j] != c
  {
    if |s| == 0 then -1
    else if s[|s| - 1] == c then |s| - 1
    else LastIndexOf(s[..|s| - 1], c)
  }

  /** `s.indexOf(c)`: the position of the first `c` in `s`, or -1. */
  function IndexOf(s: string, c: char): (k: int)
    ensures -1 <= k < |s|
    ensures k >= 0 ==> s[k] == c
    ensures forall j :: 0 <= j < |s| && (k < 0 || j < k) ==> s[j] != c
  {
    if |s| == 0 then -1
    else if s[0] == c then 0
    else
      var k := IndexOf(s[1..], c);
      if k < 0 then -1 else k + 1
  }

  /** `s.substring(s.lastIndexOf(c) + 1)`: what follows the last `c`, or all of `s`. */
  function AfterLast(s: string, c: char): (t: string)
    ensures |t| <= |s| && t == s[|s| - |t|..]
    ensures c !in t
    ensures |t| == |s| || s[|s| - |t| - 1] == c
  {
    s[LastIndexOf(s, c) + 1..]
  }

  /** `s.split(c)[0]`: what precedes the first `c`, or all of `s`. */
  function BeforeFirst(s: string, c: char): (t: string)
    ensures t <= s
    ensures c !in t
    ensures |t| == |s| || s[|t|] == c
  {
    var k := IndexOf(s, c);
    if k < 0 then s else s[..k]
  }

  /** The public id of an avatar URL (auth.controller.js line 143). */
  function PublicId(avatar: string): (id: string)
    ensures id <= AfterLast(avatar, '/')
    ensures '/' !in id && '.' !in id
    ensures |id| == |AfterLast(avatar, '/')| || AfterLast(avatar, '/')[|id|] == '.'
  {
    BeforeFirst(AfterLast(avatar, '/'), '.')
  }

  /** A URL whose last segment is `id` followed by an extension yields `id` back. */
  lemma PublicIdRecoversId(prefix: string, id: string, ext: string)
    requires '/' !in id && '.' !in id && '/' !in ext
    ensures PublicId(prefix + "/" + id + "." + ext) == id
  {
    var s := prefix + "/" + id + "." + ext;
    var tail := id + "." + ext;
    assert s == prefix + "/" + tail;
    assert forall j :: |prefix| < j < |s| ==> s[j] == tail[j - |prefix| - 1];
    LastIndexOfIs(s, '/', |prefix|);
    assert AfterLast(s, '/') == tail;
    IndexOfIs(tail, '.', |id|);
  }

  /** A URL whose last segment is `id` with no extension yields `id` back. */
  lemma PublicIdRecoversBareId(prefix: string, id: string)
    requires '/' !in id && '.' !in id
    ensures PublicId(prefix + "/" + id) == id
  {
    var s := prefix + "/" + id;
    assert forall j :: |prefix| < j < |s| ==> s[j] == id[j - |prefix| - 1];
    LastIndexOfIs(s, '/', |prefix|);
    assert AfterLast(s, '/') == id;
  }

  lemma LastIndexOfIs(s: string, c: char, k: nat)
    requires k < |s| && s[k] == c && forall j :: k < j < |s| ==> s[j] != c
    ensures LastIndexOf(s, c) == k
  {
  }

  lemma IndexOfIs(s: string, c: char, k: nat)
    requires k < |s| && s[k] == c && forall j :: 0 <= j < k ==> s[j] != c
    ensures IndexOf(s, c) == k
  {
  }
}
