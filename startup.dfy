/**
 * The checks `main` makes before the bot connects to Telegram: the token must
 * be set to something other than the placeholder, and each required file must
 * exist, checked in the order they are declared.
 */
module Startup {

  /** The token value shipped in the configuration template. */
  const PLACEHOLDER_TOKEN: string := "MASUKKAN_TOKEN_ANDA_DISINI"

  datatype Verdict =
    | TokenNotConfigured                      // the token is empty or still the placeholder
    | PathMissing(what: string, path: string) // the first required path that does not exist
    | Ready                                    // the bot goes on to connect

  /** The required paths, named as in the error message, in checking order. */
  function RequiredPaths(inventoryPath: string, playbookPath: string): seq<(string, string)>
  {
    [("Windows Inventory", inventoryPath), ("Software Playbook", playbookPath)]
  }

  predicate TokenConfigured(token: string)
  {
    token != PLACEHOLDER_TOKEN && token != ""
  }

  /**
   * The startup decision, given the token, the two configured paths and which
   * paths exist on disk: the token check comes first, then the first missing
   * path in declared order is the one reported.
   */
  method ValidateStartup(token: string, inventoryPath: string, playbookPath: string, present: string -> bool)
    returns (v: Verdict)
    ensures v == TokenNotConfigured <==> !TokenConfigured(token)
    ensures v == Ready <==> TokenConfigured(token) && present(inventoryPath) && present(playbookPath)
    ensures v.PathMissing? ==>
      TokenConfigured(token) &&
      ((v.what == "Windows Inventory" && v.path == inventoryPath && !present(inventoryPath)) ||
       (v.what == "Software Playbook" && v.path == playbookPath && present(inventoryPath) && !present(playbookPath)))
  {
    if token == PLACEHOLDER_TOKEN || token == "" {
      return TokenNotConfigured;
    }
    var required := RequiredPaths(inventoryPath, playbookPath);
    assert |required| == 2;
    assert required[0] == ("Windows Inventory", inventoryPath) && required[1] == ("Software Playbook", playbookPath);
    var i := 0;
    while i < |required|
      invariant 0 <= i <= |required|
      invariant forall k :: 0 <= k < i ==> present(required[k].1)
    {
      var (name, path) := required[i];
      if !present(path) {
        return PathMissing(name, path);
      }
      i := i + 1;
    }
    return Ready;
  }
}
