/** The constants of src/constants/platforms.ts: the initial registry and the icon key set. */
module Platforms {
  import opened Types
  import opened Text

  /** `SOCIAL_PLATFORMS`, in declaration order. */
  const SocialPlatforms: seq<SocialPlatform> := [
    SocialPlatform("twitter", "Twitter/X", "Twitter", "#1DA1F2", false, true),
    SocialPlatform("facebook", "Facebook", "Facebook", "#1877F2", false, true),
    SocialPlatform("instagram", "Instagram", "Instagram", "#E4405F", false, true),
    SocialPlatform("linkedin", "LinkedIn", "Linkedin", "#0A66C2", false, true)
  ]

  /** The keys of `PLATFORM_ICONS`. */
  const PlatformIcons: set<string> := {"Twitter", "Facebook", "Instagram", "Linkedin"}

  /** The ids of a registry, in order. */
  function Ids(ps: seq<SocialPlatform>): (r: seq<string>)
    ensures |r| == |ps| && forall i :: 0 <= i < |ps| ==> r[i] == ps[i].id
  {
    if ps == [] then [] else [ps[0].id] + Ids(ps[1..])
  }

  /** The registry's ids as declared. */
  const RegistryIdList: seq<string> := ["twitter", "facebook", "instagram", "linkedin"]

  /** Exactly four platforms: twitter, facebook, instagram, linkedin, in that order. */
  lemma RegistryIds()
    ensures Ids(SocialPlatforms) == RegistryIdList
  {
  }

  /** The registry's ids are pairwise distinct. */
  lemma RegistryIdsDistinct()
    ensures forall i, j :: 0 <= i < j < |SocialPlatforms| ==> SocialPlatforms[i].id != SocialPlatforms[j].id
  {
  }

  /** Every platform starts disconnected and requires authentication. */
  lemma RegistryInitialFlags()
    ensures forall i :: 0 <= i < |SocialPlatforms| ==> !SocialPlatforms[i].connected && SocialPlatforms[i].requiresAuth
  {
  }

  /** Capitalising each registry id, e.g. "linkedin" gives "Linkedin". */
  lemma CapitalisedIds()
    ensures Capitalize("twitter") == "Twitter"
    ensures Capitalize("facebook") == "Facebook"
    ensures Capitalize("instagram") == "Instagram"
    ensures Capitalize("linkedin") == "Linkedin"
  {
  }

  /** Every `icon` field names a key of `PLATFORM_ICONS`, and capitalising the id gives that key. */
  lemma RegistryIcons()
    ensures forall i :: 0 <= i < |SocialPlatforms| ==>
      SocialPlatforms[i].icon in PlatformIcons && Capitalize(SocialPlatforms[i].id) == SocialPlatforms[i].icon
  {
    CapitalisedIds();
  }
}
