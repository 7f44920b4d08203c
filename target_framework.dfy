/**
 * Which target frameworks count as "modern .NET" (an SDK for them can be
 * installed with dotnet-install), and the background SDK task of `init`.
 */
module TargetFramework {
  import opened Wrappers

  predicate StartsWith(s: string, prefix: string) {
    prefix <= s
  }

  /**
   * `is_modern_dotnet`. In `a || b || c && d && e && f && g` the `&&` chain
   * binds tighter, so the legacy exclusions qualify only the bare `net` prefix.
   */
  predicate IsModernDotnet(tfm: string) {
    || StartsWith(tfm, "netcoreapp")
    || StartsWith(tfm, "netstandard")
    || (&& StartsWith(tfm, "net")
        && !StartsWith(tfm, "net4")
        && !StartsWith(tfm, "net3")
        && !StartsWith(tfm, "net2")
        && !StartsWith(tfm, "net1"))
  }

  /** The classification depends only on the prefix `net` and the character after it. */
  lemma ModernByFourthCharacter(tfm: string)
    ensures IsModernDotnet(tfm) <==> StartsWith(tfm, "net") && (|tfm| == 3 || tfm[3] !in "1234")
  {
    if StartsWith(tfm, "netcoreapp") || StartsWith(tfm, "netstandard") {
      assert tfm[..3] == "net";
    }
    if StartsWith(tfm, "net") && |tfm| > 3 {
      assert StartsWith(tfm, [tfm[0], tfm[1], tfm[2], tfm[3]]);
    }
  }

  /** Reading the expression with `||` binding tighter would classify every string the same way. */
  lemma PrecedenceDoesNotMatter(tfm: string)
    ensures IsModernDotnet(tfm) <==>
      ((StartsWith(tfm, "netcoreapp") || StartsWith(tfm, "netstandard") || StartsWith(tfm, "net"))
       && !StartsWith(tfm, "net4") && !StartsWith(tfm, "net3")
       && !StartsWith(tfm, "net2") && !StartsWith(tfm, "net1"))
  {
    ModernByFourthCharacter(tfm);
  }

  /** .NET Core, .NET Standard and .NET 5 onwards are modern; .NET Framework 4.x is not, and by the literal prefix rule neither is .NET 10. */
  lemma Classifications()
    ensures IsModernDotnet("net8.0") && IsModernDotnet("net5.0")
    ensures IsModernDotnet("netcoreapp3.1") && IsModernDotnet("netstandard2.0")
    ensures !IsModernDotnet("net472") && !IsModernDotnet("net48") && !IsModernDotnet("net10.0")
    ensures !IsModernDotnet("mono") && !IsModernDotnet("ne")
  {
    ModernByFourthCharacter("net8.0");
    ModernByFourthCharacter("net5.0");
    ModernByFourthCharacter("netcoreapp3.1");
    ModernByFourthCharacter("netstandard2.0");
    ModernByFourthCharacter("net472");
    ModernByFourthCharacter("net48");
    ModernByFourthCharacter("net10.0");
    ModernByFourthCharacter("mono");
    assert "mono"[0] != "net"[0];
    ModernByFourthCharacter("ne");
  }

  /** The SDK task is spawned only for a detected modern framework with an install command configured. */
  predicate SpawnsSdkTask(detected: Result<string, string>, dotnetInstallCmd: Option<string>) {
    detected.Success? && IsModernDotnet(detected.value) && dotnetInstallCmd.Some?
  }

  /** The outcomes of the SDK task's external steps. */
  datatype SdkSteps = SdkSteps(
    install: Result<string, string>,
    xmlFiles: Result<seq<string>, string>,
    load: Result<nat, string>)

  /**
   * The SDK task's result: the number of SDK XML files loaded, zero when none
   * were found, or the first error among install, lookup and load.
   */
  function SdkTaskResult(steps: SdkSteps): (r: Result<nat, string>)
    ensures r.Success? <==>
      steps.install.Success? && steps.xmlFiles.Success? && (steps.xmlFiles.value == [] || steps.load.Success?)
    ensures steps.install.Failure? ==> r == Failure(steps.install.error)
    ensures steps.install.Success? && steps.xmlFiles.Failure? ==> r == Failure(steps.xmlFiles.error)
    ensures steps.install.Success? && steps.xmlFiles.Success? ==>
      r == (if steps.xmlFiles.value == [] then Success(0) else steps.load)
  {
    match steps.install
    case Failure(e) => Failure(e)
    case Success(sdkPath) =>
      match steps.xmlFiles
      case Failure(e) => Failure(e)
      case Success(files) => if files != [] then steps.load else Success(0)
  }
}
