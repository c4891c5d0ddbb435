/**
 * Sealing a channel's configuration. AES-256-GCM is taken as ideal: what was sealed under one key for one channel opens
 * under that key for that channel, and nothing else opens at all.
 */
module ChannelConfigVault {
  type ChannelId = nat
  type Key = nat
  type Config = string

  /**
   * The column. `Plain` is anything without a `sealed` string; `Foreign` is such a string that no vault made, be it of
   * another version, damaged, or forged; `Box` is what a vault made.
   */
  datatype Stored =
    | Plain(config: Config)
    | Foreign(text: string)
    | Box(keyId: string, key: Key, channel: ChannelId, nonce: nat, content: Config)

  datatype Error = NotReadable | OtherKey | Damaged

  datatype Result = Opened(config: Config) | Refused(error: Error)

  /** `keyId` is the beginning of a hash of the key, so two keys may share one. */
  datatype Vault = Vault(key: Key, keyId: string)

  predicate IsSealed(stored: Stored) {
    !stored.Plain?
  }

  function Seal(v: Vault, channel: ChannelId, config: Config, nonce: nat): Stored {
    Box(v.keyId, v.key, channel, nonce, config)
  }

  function Open(v: Vault, channel: ChannelId, stored: Stored): Result {
    if !IsSealed(stored) then Opened(stored.config)
    else if stored.Foreign? then Refused(NotReadable)
    else if stored.keyId != v.keyId then Refused(OtherKey)
    else if stored.key == v.key && stored.channel == channel then Opened(stored.content)
    else Refused(Damaged)
  }

  /** What is sealed opens, under the same key, for the same channel, and only so. */
  lemma OpensOnlyWhereSealed(v: Vault, w: Vault, channel: ChannelId, other: ChannelId, config: Config, nonce: nat)
    requires v.key == w.key ==> v.keyId == w.keyId
    ensures Open(w, other, Seal(v, channel, config, nonce)).Opened? <==> w.key == v.key && other == channel
    ensures Open(v, channel, Seal(v, channel, config, nonce)) == Opened(config)
  {
  }

  /**
   * Why something does not open: no vault made it, or one with a key of another name, or it was made for another channel
   * or under another key of that name.
   */
  lemma RefusedWhen(v: Vault, channel: ChannelId, stored: Stored)
    ensures Open(v, channel, stored) == Refused(NotReadable) <==> stored.Foreign?
    ensures Open(v, channel, stored) == Refused(OtherKey) <==> stored.Box? && stored.keyId != v.keyId
    ensures Open(v, channel, stored) == Refused(Damaged) <==>
            stored.Box? && stored.keyId == v.keyId && (stored.key != v.key || stored.channel != channel)
    ensures stored.Plain? ==> Open(v, channel, stored) == Opened(stored.config)
  {
  }
}
